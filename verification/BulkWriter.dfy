/**
 The bulk writer of examples/tcp/tcp-large-transfer.cc: a transfer that fills the socket's buffer,
 returns when the socket refuses, and is resumed by the socket's send callback.

 The socket is any socket that accepts a non-empty prefix of a write or refuses it; what it answers
 and how much space it reports is given by two arbitrary functions of the number of calls so far.
 */
module BulkWriter {

  const TOTAL_TX_BYTES := 2000000
  const WRITE_SIZE := 1040

  /** The stream that the receiver is meant to see: the alphabet over and over. */
  function StreamByte(k: nat): int {
    97 + k % 26
  }

  ghost predicate IsStreamPrefix(bytes: seq<int>) {
    forall k :: 0 <= k < |bytes| ==> bytes[k] == StreamByte(k)
  }

  class Socket {
    const space: nat -> nat   // GetTxAvailable after so many calls
    const answer: nat -> int  // negative: the write is refused; otherwise how much is accepted
    var calls: nat
    var accepted: seq<int>
    var connected: bool
    var closes: nat

    constructor (space: nat -> nat, answer: nat -> int)
      ensures accepted == [] && closes == 0 && !connected && calls == 0
      ensures this.space == space && this.answer == answer
    {
      this.space, this.answer, calls, accepted, connected, closes := space, answer, 0, [], false, 0;
    }

    method GetTxAvailable() returns (n: nat)
      ensures n == space(calls)
    {
      n := space(calls);
    }

    method Send(data: array<int>, offset: nat, size: nat) returns (amountSent: int)
      requires 0 < size && offset + size <= data.Length
      modifies this`calls, this`accepted
      ensures calls == old(calls) + 1
      ensures answer(old(calls)) < 0 ==> amountSent == -1 && accepted == old(accepted)
      ensures answer(old(calls)) >= 0 ==>
                1 <= amountSent <= size && accepted == old(accepted) + data[offset..offset + amountSent]
    {
      var reply := answer(calls);
      calls := calls + 1;
      if reply < 0 {
        return -1;
      }
      amountSent := 1 + reply % size;
      accepted := accepted + data[offset..offset + amountSent];
    }

    method Close()
      modifies this`closes
      ensures closes == old(closes) + 1
    {
      closes := closes + 1;
    }
  }

  /** The write size is a multiple of the alphabet, so an offset into the buffer is an offset into the stream. */
  lemma BufferMatchesStream(k: nat, j: nat)
    ensures StreamByte(k % WRITE_SIZE + j) == StreamByte(k + j)
  {
    var q := k / WRITE_SIZE;
    assert k + j == k % WRITE_SIZE + j + 26 * (40 * q);
    ModAddMultiple(k % WRITE_SIZE + j, 40 * q);
  }

  lemma {:induction false} ModAddMultiple(a: nat, m: nat)
    ensures (a + 26 * m) % 26 == a % 26
  {
    if m > 0 {
      ModAddMultiple(a, m - 1);
      assert a + 26 * m == (a + 26 * (m - 1)) + 26;
    }
  }

  lemma {:induction false} ExtendStream(sent: seq<int>, chunk: seq<int>)
    requires IsStreamPrefix(sent)
    requires forall j :: 0 <= j < |chunk| ==> chunk[j] == StreamByte(|sent| % WRITE_SIZE + j)
    ensures IsStreamPrefix(sent + chunk)
  {
    forall k | 0 <= k < |sent + chunk| ensures (sent + chunk)[k] == StreamByte(k) {
      if k >= |sent| {
        BufferMatchesStream(|sent|, k - |sent|);
      }
    }
  }

  class Flow {
    const socket: Socket
    const data: array<int>
    var currentTxBytes: nat

    /** What holds between any two callbacks. */
    ghost predicate Valid()
      reads this, socket, data
    {
      && data.Length == WRITE_SIZE
      && (forall i :: 0 <= i < WRITE_SIZE ==> data[i] == StreamByte(i))
      && currentTxBytes == |socket.accepted| <= TOTAL_TX_BYTES
      && IsStreamPrefix(socket.accepted)
      && (socket.closes > 0 ==> currentTxBytes == TOTAL_TX_BYTES)
    }

    /** Fills the transmit buffer, as the start of main does. */
    constructor (socket: Socket)
      requires socket.accepted == [] && socket.closes == 0
      ensures Valid() && this.socket == socket && fresh(data)
      ensures data.Length == 1040 && forall i :: 0 <= i < 1040 ==> data[i] == 97 + i % 26
    {
      var buffer := new int[WRITE_SIZE];
      for i := 0 to WRITE_SIZE
        invariant forall k :: 0 <= k < i ==> buffer[k] == StreamByte(k)
      {
        buffer[i] := 97 + i % 26;
      }
      this.socket, data, currentTxBytes := socket, buffer, 0;
    }

    /**
     Writes until everything is accepted, the socket is full, or it refuses.  Nothing already accepted
     changes, and the socket is closed exactly when nothing is left to send.
     */
    method WriteUntilBufferFull(txSpace: nat)
      requires Valid()
      modifies this`currentTxBytes, socket
      ensures Valid() && socket.connected == old(socket.connected)
      ensures old(socket.accepted) <= socket.accepted
      ensures old(socket.closes) > 0 ==> socket.accepted == old(socket.accepted)
      ensures currentTxBytes == TOTAL_TX_BYTES ==> socket.closes == old(socket.closes) + 1
      ensures currentTxBytes < TOTAL_TX_BYTES ==>
                && socket.closes == old(socket.closes)
                && (socket.space(socket.calls) == 0 || (socket.calls > 0 && socket.answer(socket.calls - 1) < 0))
    {
      var available := socket.GetTxAvailable();
      while currentTxBytes < TOTAL_TX_BYTES && available > 0
        invariant Valid() && socket.closes == old(socket.closes) && socket.connected == old(socket.connected)
        invariant available == socket.space(socket.calls) && old(socket.accepted) <= socket.accepted
        decreases TOTAL_TX_BYTES - currentTxBytes
      {
        var left := TOTAL_TX_BYTES - currentTxBytes;
        var dataOffset := currentTxBytes % WRITE_SIZE;
        var toWrite := WRITE_SIZE - dataOffset;
        toWrite := if toWrite < left then toWrite else left;
        toWrite := if toWrite < available then toWrite else available;
        ghost var sent := socket.accepted;
        var amountSent := socket.Send(data, dataOffset, toWrite);
        if amountSent < 0 {
          return;
        }
        ExtendStream(sent, data[dataOffset..dataOffset + amountSent]);
        currentTxBytes := currentTxBytes + amountSent;
        available := socket.GetTxAvailable();
      }
      if currentTxBytes >= TOTAL_TX_BYTES {
        socket.Close();
      }
    }

    method StartFlow()
      requires Valid()
      modifies this`currentTxBytes, socket
      ensures Valid() && socket.connected && old(socket.accepted) <= socket.accepted
      ensures currentTxBytes == TOTAL_TX_BYTES <==> socket.closes == old(socket.closes) + 1
    {
      socket.connected := true;
      var available := socket.GetTxAvailable();
      WriteUntilBufferFull(available);
    }
  }

  /**
   A whole transfer: the flow is started and the socket calls back any number of times.  Whatever the
   socket does, it has accepted a prefix of the stream, and has been closed only after all of it;
   accepted bytes never change, so after a close nothing more is sent.
   */
  method Transfer(space: nat -> nat, answer: nat -> int, callbacks: nat) returns (accepted: seq<int>, closed: bool)
    ensures |accepted| <= 2000000 && forall k :: 0 <= k < |accepted| ==> accepted[k] == 97 + k % 26
    ensures closed <==> |accepted| == 2000000
  {
    var socket := new Socket(space, answer);
    var flow := new Flow(socket);
    flow.StartFlow();
    for i := 0 to callbacks
      invariant flow.Valid() && flow.socket == socket && fresh(socket) && fresh(flow) && fresh(flow.data)
      invariant flow.currentTxBytes == TOTAL_TX_BYTES ==> socket.closes > 0
    {
      var room := socket.GetTxAvailable();
      socket.calls := socket.calls + 1; // time passes before the callback
      flow.WriteUntilBufferFull(room);
    }
    accepted, closed := socket.accepted, socket.closes > 0;
  }
}
