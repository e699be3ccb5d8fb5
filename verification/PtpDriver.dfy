/**
 The PTP data phase as it travels through the 900-byte receive window, and the
 Canon EOS event reader on top of it.

 The camera is a script: the bytes of the data phase and how many of them it has
 sent, the code of its closing response and, for each USB transfer to come, whether
 that transfer fails.
 */
module PtpDriver {
  import opened EosFraming

  const RESPONSE_OK: nat := 0x2001
  const RESPONSE_BUSY: nat := 0x2019
  const RESPONSE_BAD_LENGTH: nat := 0x5001
  const TRANSFER_ERROR: nat := 1  // stands for whatever error a USB transfer fails with
  const CONTAINER_HEADER: nat := 12
  const EOS_EVENT_GET: nat := 0x9116

  datatype Return = Ok | Error | DataRemaining

  datatype Direction = NoData | DataOut | DataIn

  /** What the camera answers to a command that asks for data. */
  datatype Reply = Reply(code: nat, length: nat, data: seq<byte>, response: nat) {
    /** A reply that follows the transaction phases: the data container carries the
        operation code and announces its length, which 16 bits can hold, and the
        response says OK. */
    predicate Obeys(opCode: nat) {
      && (code == opCode || code == RESPONSE_OK)
      && length == CONTAINER_HEADER + |data|
      && |data| < 0x1_0000
      && response == RESPONSE_OK
    }

    /** The header belongs to this transaction and announces a length. */
    predicate Announces(opCode: nat) {
      (code == opCode || code == RESPONSE_OK) && length >= CONTAINER_HEADER
    }

    /** The response code recorded for a header that does not. */
    function Refusal(opCode: nat): nat {
      if code != RESPONSE_OK && code != opCode then code else RESPONSE_BAD_LENGTH
    }
  }

  function Min(a: nat, b: nat): nat { if a <= b then a else b }

  class Driver {
    const buffer: array<byte>
    var received: nat
    var remaining: nat
    var total: nat
    var error: nat
    var ready: bool
    var responseCode: nat
    var ignoreErrors: bool

    // the camera's side
    var data: seq<byte>
    var sent: nat
    var response: nat
    var faults: seq<bool>

    ghost predicate Sized()
      reads this
    {
      buffer.Length == BUFFER_SIZE && sent <= |data|
    }

    /** Without a pending error the received bytes are in the window; after a failed header
        their number is only what the camera announced. */
    ghost predicate Valid()
      reads this
    {
      Sized() && (error == 0 ==> received <= BUFFER_SIZE)
    }

    /** No USB transfer to come will fail. */
    ghost predicate Reliable()
      reads this`faults
    {
      true !in faults
    }

    /** Nothing in flight, no error pending, a reliable link. */
    ghost predicate Idle()
      reads this
    {
      remaining == 0 && error == 0 && Reliable()
    }

    /** The window holds the contiguous slice of the data phase that ends where the
        unread part begins; while anything is unread the window is full. */
    ghost predicate Window()
      requires Sized()
      reads this, buffer
    {
      && sent + remaining == |data|
      && received <= sent && received <= BUFFER_SIZE
      && (remaining > 0 ==> received == BUFFER_SIZE)
      && forall k :: 0 <= k < received ==> buffer[k] == data[sent - received + k]
    }

    constructor ()
      ensures Valid() && Idle() && fresh(buffer)
    {
      buffer := new byte[BUFFER_SIZE](_ => 0);
      received, remaining, total, error, responseCode := 0, 0, 0, 0, 0;
      ready, ignoreErrors := true, false;
      data, sent, response, faults := [], 0, RESPONSE_OK, [];
    }

    /** The next USB transfer happens; the script decides whether it fails. */
    method Transfer() returns (failed: bool)
      modifies this`faults
      ensures old(Reliable()) ==> !failed && Reliable()
    {
      failed := false;
      if faults != [] {
        failed, faults := faults[0], faults[1..];
      }
    }

    /** Bulk read of n bytes into the window at the given place. */
    method ReadData(at: nat, n: nat) returns (failed: bool)
      requires Sized() && at + n <= BUFFER_SIZE
      modifies this`faults, this`sent, buffer
      ensures Sized()
      ensures old(Reliable()) ==> Reliable()
      ensures old(Reliable()) && old(sent) + n <= |data| ==> !failed
      ensures !failed ==> sent == old(sent) + n
      ensures forall k :: 0 <= k < at ==> buffer[k] == old(buffer[k])
      ensures !failed ==> forall k :: at <= k < at + n ==> buffer[k] == data[old(sent) + k - at]
    {
      failed := Transfer();
      if failed || sent + n > |data| { return true; }
      forall k | at <= k < at + n { buffer[k] := data[sent + k - at]; }
      sent := sent + n;
    }

    /** The closing response; fails unless the camera says OK. */
    method ReceiveResponse() returns (failed: bool)
      modifies this`faults
      ensures old(Reliable()) ==> Reliable() && failed == (response != RESPONSE_OK)
      ensures response != RESPONSE_OK ==> failed
    {
      failed := Transfer();
      failed := failed || response != RESPONSE_OK;
    }

    /** Reads the header of the data block: the announced length is kept in 16 bits, as the
        number of bytes received, also when the header's transfer failed. */
    method ReceiveHeader(opCode: nat, reply: Reply) returns (failed: bool)
      modifies this`received, this`total, this`responseCode, this`faults
      ensures total == received == (if reply.Announces(opCode) then (reply.length - CONTAINER_HEADER) % 0x1_0000 else 0)
      ensures !reply.Announces(opCode) ==> failed
      ensures responseCode == if reply.Announces(opCode) then old(responseCode) else reply.Refusal(opCode)
      ensures old(Reliable()) ==> Reliable() && failed == !reply.Announces(opCode)
    {
      received := 0;
      failed := Transfer();
      if reply.code != RESPONSE_OK && reply.code != opCode {
        failed, responseCode := true, reply.code;
      } else if reply.length >= CONTAINER_HEADER {
        received := (reply.length - CONTAINER_HEADER) % 0x1_0000;
      } else {
        failed, responseCode := true, RESPONSE_BAD_LENGTH;
      }
      total := received;
    }

    /** Reads the start of a data phase announced by the camera: all of it if it fits
        the window, else a windowful. */
    method ReceiveDataPhase(opCode: nat, reply: Reply) returns (failed: bool, more: bool)
      requires Sized() && remaining == 0
      requires data == reply.data && sent == 0
      modifies this`received, this`remaining, this`total, this`responseCode, this`faults, this`sent, buffer
      ensures Sized() && (!failed ==> received <= BUFFER_SIZE)
      ensures more ==> !failed && remaining > 0
      ensures !failed && !more ==> remaining == 0
      ensures old(Reliable()) ==> Reliable()
      ensures total == (if reply.Announces(opCode) then (reply.length - CONTAINER_HEADER) % 0x1_0000 else 0)
      ensures responseCode == if reply.Announces(opCode) then old(responseCode) else reply.Refusal(opCode)
      ensures !reply.Announces(opCode) ==> failed && received == 0 && remaining == 0
      ensures !failed ==> received == Min(total, BUFFER_SIZE) && remaining == total - received
      ensures old(Reliable()) && reply.Obeys(opCode) ==>
                && !failed && Window() && more == (remaining > 0)
                && sent == received == Min(|data|, BUFFER_SIZE)
    {
      more := false;
      failed := ReceiveHeader(opCode, reply);
      if failed { return; }
      if received > BUFFER_SIZE {
        remaining := received - BUFFER_SIZE;
        received := BUFFER_SIZE;
        failed := ReadData(0, received);
        more := !failed;
      } else if received > 0 {
        failed := ReadData(0, received);
      }
    }

    /** Starts a transaction, or goes on with an unfinished one. With a well-behaved
        camera the first window of the data phase is in place afterwards; with any other
        the failure is recorded and its response code is not OK. */
    method Transaction(opCode: nat, direction: Direction, reply: Reply) returns (ret: Return)
      requires Valid() && opCode != 0
      modifies this, buffer
      ensures Valid()
      ensures ret == DataRemaining ==> remaining > 0
      ensures ret != Error ==> error == 0
      ensures old(error) != 0 ==> ret == Error && remaining == old(remaining) && error == old(error)
      ensures old(Window()) && old(remaining) > 0 && ret != Error ==> Window() && data == old(data)
      ensures old(error) == 0 && old(remaining) == 0 && ret == Error ==>
                error == opCode && !ready && responseCode != RESPONSE_OK
      ensures old(error) == 0 && old(remaining) == 0 && ret == Ok ==>
                && responseCode == reply.response
                && (responseCode == RESPONSE_OK || responseCode == RESPONSE_BUSY || old(ignoreErrors))
      ensures old(Idle()) && direction != DataIn ==>
                (ret == Error <==> reply.response != RESPONSE_OK && reply.response != RESPONSE_BUSY && !old(ignoreErrors))
      ensures old(Idle()) && direction == DataIn && !reply.Announces(opCode) ==>
                ret == Error && responseCode == reply.Refusal(opCode)
      ensures old(Idle()) && direction == DataIn && reply.Obeys(opCode) ==>
                && data == reply.data && response == RESPONSE_OK
                && Reliable() && error == 0 && Window()
                && sent == received == Min(|data|, BUFFER_SIZE)
                && ret == (if remaining > 0 then DataRemaining else Ok)
    {
      if error != 0 { return Error; }
      if remaining > 0 {
        ret := FetchData(0);
        return;
      }
      data, sent, response := reply.data, 0, reply.response;

      var err := Transfer();  // the command block
      if !err && direction == DataOut {
        err := Transfer();
      } else if !err && direction == DataIn {
        var more;
        err, more := ReceiveDataPhase(opCode, reply);
        if more {
          ignoreErrors := false;
          return DataRemaining;
        }
      }
      ret := Conclude(opCode, err);
    }

    /** The end of a transaction: the response, unless something has failed before it, and the
        record of a failure. */
    method Conclude(opCode: nat, failed: bool) returns (ret: Return)
      requires Sized() && error == 0 && opCode != 0 && (!failed ==> received <= BUFFER_SIZE)
      modifies this`error, this`ready, this`responseCode, this`ignoreErrors, this`faults
      ensures Valid() && ret != DataRemaining
      ensures ret == Error ==> error == opCode && !ready && responseCode != RESPONSE_OK
      ensures ret == Ok ==>
                && !failed && error == 0 && responseCode == response
                && (responseCode == RESPONSE_OK || responseCode == RESPONSE_BUSY || old(ignoreErrors))
      ensures failed ==> ret == Error && (old(responseCode) != RESPONSE_OK ==> responseCode == old(responseCode))
      ensures old(Reliable()) ==> Reliable()
      ensures old(Reliable()) && !failed ==>
                (ret == Error <==> response != RESPONSE_OK && response != RESPONSE_BUSY && !old(ignoreErrors))
    {
      var err := failed;
      if !err {
        err := ReceiveResponse();
        responseCode := response;
        if responseCode == RESPONSE_BUSY || ignoreErrors { err := false; }
      }
      ignoreErrors := false;
      if err {
        if responseCode == RESPONSE_OK { responseCode := TRANSFER_ERROR; }
        error, ready := opCode, false;
        return Error;
      }
      ret := Ok;
    }

    /** Moves the last `offset` bytes of the window to its front. */
    method KeepTail(offset: nat)
      requires buffer.Length == BUFFER_SIZE && offset <= BUFFER_SIZE
      modifies buffer
      ensures forall k :: 0 <= k < offset ==> buffer[k] == old(buffer[BUFFER_SIZE - offset + k])
    {
      forall k | 0 <= k < offset { buffer[k] := buffer[BUFFER_SIZE - offset + k]; }
    }

    /** Fetches the next part of the data phase, keeping the last `offset` bytes of the
        window in front of it. Every successful fetch keeps the window contiguous and
        leaves the kept bytes where the stream has them. */
    method FetchData(offset: nat) returns (ret: Return)
      requires Valid() && offset <= BUFFER_SIZE
      modifies this`received, this`remaining, this`faults, this`sent, buffer
      ensures Valid() && (old(remaining) > 0 ==> received <= BUFFER_SIZE)
      ensures old(remaining) == 0 ==>
                ret == Error && remaining == 0 && received == old(received) && sent == old(sent) && buffer[..] == old(buffer[..])
      ensures old(remaining) > 0 && offset < BUFFER_SIZE ==> remaining < old(remaining) && received > 0
      ensures remaining <= old(remaining)
      ensures ret == DataRemaining ==> remaining > 0
      ensures ret == Ok ==> remaining == 0
      ensures old(Reliable()) ==> Reliable()
      ensures old(Window()) && old(remaining) > 0 && offset < BUFFER_SIZE && ret != Error ==>
                && Window()
                && sent - old(sent) == Min(old(remaining), BUFFER_SIZE - offset)
                && received == offset + (sent - old(sent))
      ensures old(Reliable() && Window()) && old(remaining) > 0 && response == RESPONSE_OK && offset < BUFFER_SIZE ==>
                ret != Error
    {
      if remaining == 0 { return Error; }
      var failed := FetchPart(offset);
      if failed { return Error; }
      if remaining == 0 {
        failed := ReceiveResponse();
        return if failed then Error else Ok;
      }
      ret := DataRemaining;
    }

    /** The next windowful behind the kept bytes. */
    method FetchPart(offset: nat) returns (failed: bool)
      requires Sized() && offset <= BUFFER_SIZE && remaining > 0
      modifies this`received, this`remaining, this`faults, this`sent, buffer
      ensures Sized() && received <= BUFFER_SIZE
      ensures remaining == old(remaining) - Min(old(remaining), BUFFER_SIZE - offset)
      ensures offset < BUFFER_SIZE ==> received > 0
      ensures old(Reliable()) ==> Reliable()
      ensures old(Window()) && offset < BUFFER_SIZE && !failed ==>
                && Window()
                && sent - old(sent) == Min(old(remaining), BUFFER_SIZE - offset)
                && received == offset + (sent - old(sent))
      ensures old(Reliable() && Window()) && offset < BUFFER_SIZE ==> !failed
    {
      var count := if remaining > BUFFER_SIZE then BUFFER_SIZE else remaining;
      if offset > 0 {
        if count + offset > BUFFER_SIZE { count := BUFFER_SIZE - offset; }
        KeepTail(offset);
      }
      received := count;
      remaining := remaining - count;
      failed := ReadData(offset, count);
      if !failed { received := received + offset; }
    }

    /** The position in the data phase of window byte i. */
    ghost function Position(i: nat): (p: int)
      reads this
    {
      sent - received + i
    }

    /** Everything before window byte i has been handed out as events, in order, and
        the rest of the data phase parses. */
    ghost predicate Delivered(events: seq<seq<byte>>, i: nat)
      requires Sized()
      reads this, buffer
    {
      && Window()
      && i <= received
      && WellFormed(data)
      && WellFormed(data[Position(i)..])
      && events + Parse(data[Position(i)..]) == Parse(data)
    }

    /** The event at window byte i, once it is wholly in the window. */
    lemma NextEvent(events: seq<seq<byte>>, i: nat, size: nat)
      requires Valid() && Delivered(events, i) && i < received
      requires i + 4 <= received && size == Le32(buffer[i..i + 4])
      ensures SIZE_FIELD < size <= BUFFER_SIZE
      ensures i + size <= BUFFER_SIZE ==> i + size <= received && Delivered(events + [buffer[i..i + size]], i + size)
    {
      var p := Position(i);
      assert buffer[i..i + 4] == data[p..][..4];
      if i + size <= BUFFER_SIZE {
        assert buffer[i..i + size] == data[p..][..size];
        assert data[p..][size..] == data[Position(i + size)..];
        var rest := Parse(data[p..][size..]);
        assert (events + [buffer[i..i + size]]) + rest == events + ([buffer[i..i + size]] + rest);
      }
    }

    /** A whole event always follows an unfinished position, and its size field is in
        the window unless the window is full and more is to come. */
    lemma SizeFieldInWindow(events: seq<seq<byte>>, i: nat)
      requires Valid() && Delivered(events, i) && i < received
      ensures remaining == 0 ==> i + SIZE_FIELD < received
    {
      assert |data[Position(i)..]| > 0;
    }

    /** Where the search for the next event after an oversized one begins: the count of
        bytes to drop falls short by one windowful. */
    ghost function SearchFrom(start: nat, size: nat): int
      reads this
    {
      Position(start) + size - BUFFER_SIZE
    }

    /** Nothing but zeros from a position of the data phase up to window byte i. */
    ghost predicate ZerosUpTo(from: int, i: nat)
      requires Sized()
      reads this
    {
      forall q :: from <= q < Position(i) && 0 <= q < |data| ==> data[q] == 0
    }

    /** Skips an event larger than the window: drops windowfuls, then looks for the next
        non-zero byte. It always makes progress. If it stops while data remain, it is at the
        first non-zero byte from a windowful before the event's end on. */
    method Resynchronise(start: nat, size: nat) returns (i: nat, ret: Return)
      requires Valid() && error == 0 && start < received && size > BUFFER_SIZE && remaining > 0
      modifies this`received, this`remaining, this`faults, this`sent, buffer
      ensures Valid()
      ensures ret == DataRemaining ==> remaining > 0 && i < received && buffer[i] != 0
      ensures remaining < old(remaining) || (remaining == old(remaining) && received == old(received) && start < i < received)
      ensures old(Window()) && ret == DataRemaining ==>
                && Window() && ZerosUpTo(old(SearchFrom(start, size)), i)
                && old(SearchFrom(start, size)) <= Position(i) && data[Position(i)] != 0
    {
      ghost var good, from := Window(), SearchFrom(start, size);
      i, ret := DropWindows(start, size);
      while ret == DataRemaining
        invariant Valid()
        invariant ret == DataRemaining ==> remaining > 0 && i <= BUFFER_SIZE
        invariant remaining < old(remaining) || (remaining == old(remaining) && received == old(received) && i > start && ret == DataRemaining)
        invariant good && ret == DataRemaining ==> Window() && from <= Position(i) && ZerosUpTo(from, i)
        decreases remaining, ret == DataRemaining
      {
        var x := i;
        while x < received && buffer[x] == 0
          invariant i <= x
          invariant forall k :: i <= k < x && k < received ==> buffer[k] == 0
        {
          x := x + 1;
        }
        if x < received {
          if good { ZerosGrow(from, i, x); }
          return x, ret;
        }
        if good { ZerosGrow(from, i, received); }
        i := 0;
        ret := FetchData(0);
      }
    }

    /** The zeros seen in the window. */
    lemma ZerosGrow(from: int, i: nat, x: nat)
      requires Valid() && Window() && ZerosUpTo(from, i) && x <= received
      requires forall k :: i <= k < x ==> buffer[k] == 0
      ensures ZerosUpTo(from, x)
    {
      forall q | from <= q < Position(x) && 0 <= q < |data| ensures data[q] == 0 {
        if q >= Position(i) { assert data[q] == buffer[q - Position(0)]; }
      }
    }

    /** Drops whole windowfuls of an oversized event. */
    method DropWindows(start: nat, size: nat) returns (left: nat, ret: Return)
      requires Valid() && error == 0 && start < received && size > BUFFER_SIZE && remaining > 0
      modifies this`received, this`remaining, this`faults, this`sent, buffer
      ensures Valid()
      ensures ret == DataRemaining ==> remaining > 0 && left <= BUFFER_SIZE
      ensures remaining < old(remaining) ||
              (remaining == old(remaining) && received == old(received) && left > start && ret == DataRemaining)
      ensures old(Window()) && ret == DataRemaining ==>
                Window() && Position(left) == old(SearchFrom(start, size))
    {
      left := size - (BUFFER_SIZE - start);
      ret := DataRemaining;
      while left > BUFFER_SIZE && ret == DataRemaining
        invariant Valid()
        invariant ret == DataRemaining ==> remaining > 0
        invariant remaining < old(remaining) || (remaining == old(remaining) && received == old(received) && left > start && ret == DataRemaining)
        invariant old(Window()) && ret == DataRemaining ==> Window() && Position(left) == old(SearchFrom(start, size))
        decreases left
      {
        ret := FetchData(0);
        left := left - received;
      }
    }

    /** The reader's state at a position between two events. */
    ghost predicate OnTrack(stream: seq<byte>, events: seq<seq<byte>>, i: nat, ret: Return)
      requires Sized()
      reads this, buffer
    {
      && Delivered(events, i)
      && data == stream && response == RESPONSE_OK
      && error == 0 && Reliable()
      && ret == if remaining > 0 then DataRemaining else Ok
    }

    /** Fetches more of the data phase in front of which window byte i is kept: the
        reader goes on at the same position of the stream, now window byte 0. */
    method Refill(i: nat, ghost stream: seq<byte>, ghost events: seq<seq<byte>>) returns (ret: Return)
      requires Valid() && error == 0 && 0 < i <= BUFFER_SIZE && remaining > 0
      modifies this`received, this`remaining, this`faults, this`sent, buffer
      ensures Valid() && remaining < old(remaining)
      ensures ret == DataRemaining ==> remaining > 0
      ensures old(OnTrack(stream, events, i, DataRemaining)) ==> OnTrack(stream, events, 0, ret)
    {
      ret := FetchData(BUFFER_SIZE - i);
      assert old(OnTrack(stream, events, i, DataRemaining)) ==> Position(0) == old(Position(i));
    }

    /** The event at window byte i is cut off by the window's end: fetches more data, or
        fails if there are none. */
    method FetchMore(i: nat, ret: Return, ghost stream: seq<byte>, ghost done: seq<seq<byte>>)
      returns (next: nat, state: Return, failed: bool)
      requires Valid() && error == 0 && i < BUFFER_SIZE && (ret == DataRemaining ==> remaining > 0 && i > 0)
      modifies this`received, this`remaining, this`faults, this`sent, buffer
      ensures Valid() && remaining <= old(remaining)
      ensures state == DataRemaining ==> remaining > 0
      ensures !failed ==> remaining < old(remaining)
      ensures old(OnTrack(stream, done, i, ret)) && old(remaining) > 0 ==> !failed && OnTrack(stream, done, next, state)
    {
      next, state, failed := i, ret, true;
      if ret == DataRemaining {
        next := 0;
        state := Refill(i, stream, done);
        failed := state == Error;
      }
    }

    /** One turn of the reading loop at window byte i: hands out the event there, or
        fetches more data if the event or its size field is cut off by the window's
        end, or fails. */
    method Turn(i: nat, ret: Return, ghost stream: seq<byte>, ghost done: seq<seq<byte>>)
      returns (next: nat, state: Return, failed: bool, events: seq<seq<byte>>)
      requires Valid() && error == 0 && i < received
      requires ret == DataRemaining ==> remaining > 0
      modifies this`received, this`remaining, this`faults, this`sent, buffer
      ensures Valid()
      ensures state == DataRemaining ==> remaining > 0
      ensures !failed ==> remaining < old(remaining) ||
                          (remaining == old(remaining) && received == old(received) && i < next)
      ensures remaining <= old(remaining)
      ensures old(OnTrack(stream, done, i, ret)) ==> !failed && OnTrack(stream, done + events, next, state)
    {
      events := [];
      assert done + events == done;
      if i + SIZE_FIELD >= BUFFER_SIZE {
        if remaining == 0 && OnTrack(stream, done, i, ret) { SizeFieldInWindow(done, i); }
        next, state, failed := FetchMore(i, ret, stream, done);
      } else {
        next, state, failed, events := TurnAt(i, ret, stream, done);
      }
    }

    /** The turn when the event's size field is within the window's bounds. */
    method TurnAt(i: nat, ret: Return, ghost stream: seq<byte>, ghost done: seq<seq<byte>>)
      returns (next: nat, state: Return, failed: bool, events: seq<seq<byte>>)
      requires Valid() && error == 0 && i < received && i + SIZE_FIELD < BUFFER_SIZE
      requires ret == DataRemaining ==> remaining > 0
      modifies this`received, this`remaining, this`faults, this`sent, buffer
      ensures Valid()
      ensures state == DataRemaining ==> remaining > 0
      ensures !failed ==> remaining < old(remaining) ||
                          (remaining == old(remaining) && received == old(received) && i < next)
      ensures remaining <= old(remaining)
      ensures old(OnTrack(stream, done, i, ret)) ==> !failed && OnTrack(stream, done + events, next, state)
    {
      next, state, failed, events := i, ret, true, [];
      ghost var good := OnTrack(stream, done, i, ret);
      assert done + events == done;
      var size := Le32(buffer[i..i + 4]);
      if good {
        SizeFieldInWindow(done, i);
        NextEvent(done, i, size);
      }
      if size == 0 { return; }
      if size + i <= BUFFER_SIZE { return i + size, ret, false, [buffer[i..i + size]]; }
      if size > BUFFER_SIZE && ret == DataRemaining {
        next, state := Resynchronise(i, size);
        failed := false;
      } else {
        next, state, failed := FetchMore(i, ret, stream, done);
      }
    }

    /** One poll of the camera's event queue. Whatever payloads the camera sends, up to 64 KB
        of them, the windowed loop hands out exactly their messages, in order, and leaves
        the driver ready for the next poll. It ends on every stream. */
    method CheckEvent(reply: Reply) returns (failed: bool, events: seq<seq<byte>>)
      requires Valid()
      modifies this, buffer
      ensures Valid()
      ensures old(Idle()) && reply.Obeys(EOS_EVENT_GET) && WellFormed(reply.data) ==>
                !failed && events == Parse(reply.data) && Idle()
      ensures forall payloads ::
                old(Idle()) && reply.Obeys(EOS_EVENT_GET) && Sendable(payloads) && reply.data == Wire(payloads) ==>
                  !failed && events == Messages(payloads) && Idle()
    {
      failed, events := ReadEvents(reply);
      forall payloads | Sendable(payloads) && reply.data == Wire(payloads)
        ensures WellFormed(reply.data) && Parse(reply.data) == Messages(payloads)
      {
        WireParses(payloads);
      }
    }

    /** The reading loop, against the parse of the whole stream. */
    method ReadEvents(reply: Reply) returns (failed: bool, events: seq<seq<byte>>)
      requires Valid()
      modifies this, buffer
      ensures Valid()
      ensures old(Idle()) && reply.Obeys(EOS_EVENT_GET) && WellFormed(reply.data) ==>
                !failed && events == Parse(reply.data) && Idle()
    {
      events := [];
      ghost var good := Idle() && reply.Obeys(EOS_EVENT_GET) && WellFormed(reply.data);
      var ret := Transaction(EOS_EVENT_GET, DataIn, reply);
      if ret == Error { return true, events; }
      var i: nat := 0;
      assert good ==> Position(0) == 0 && data[0..] == data;
      while true
        invariant Valid() && error == 0
        invariant ret == DataRemaining ==> remaining > 0
        invariant good ==> OnTrack(reply.data, events, i, ret)
        decreases remaining
      {
        ghost var before := remaining;
        while i < received
          invariant Valid() && error == 0 && remaining <= before
          invariant ret == DataRemaining ==> remaining > 0
          invariant good ==> OnTrack(reply.data, events, i, ret)
          decreases remaining, if i < received then received - i else 0
        {
          var found;
          i, ret, failed, found := Turn(i, ret, reply.data, events);
          if failed { return; }
          events := events + found;
        }
        if ret != DataRemaining { break; }
        ret := Refill(BUFFER_SIZE, reply.data, events);
        if ret == Error { return true, events; }
        i := 0;
      }
      failed := false;
    }
  }
}
