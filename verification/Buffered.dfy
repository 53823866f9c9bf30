// The rate-limited output file of a migration (Main/linux/buffered_file.c) against a
// backend that takes as little as it likes, stalls, or fails.

module Buffered {
  import opened Common
  import opened Wire

  const S63: int := 0x8000_0000_0000_0000

  // ------------------------------------------------------- what the backend does

  datatype End = Done | Frozen | Failed | Limited

  /** How far an offer of bytes came, why it ended, and the answers still to come. */
  datatype Taken = Taken(count: nat, end: End, left: seq<int>)

  /** n bytes are offered until all are taken. Each answer is a number of bytes,
      EAGAIN or an error; behind the answers listed the backend takes everything.
      With `counted`, bytes use up `room`, and once that is negative no more are
      offered. */
  function Offer(n: nat, answers: seq<int>, counted: bool, room: int): (t: Taken)
    ensures t.count <= n && |t.left| <= |answers|
    ensures t.end.Done? <==> t.count == n
    ensures t.end.Frozen? ==> |t.left| < |answers|
    ensures t.end.Limited? ==> counted && room - t.count < 0
    ensures n > 0 && counted && room < 0 ==> t == Taken(0, Limited, answers)
    decreases |answers|
  {
    if n == 0 then Taken(0, Done, answers)
    else if counted && room < 0 then Taken(0, Limited, answers)
    else if answers == [] then Taken(n, Done, [])
    else if answers[0] == -EAGAIN then Taken(0, Frozen, answers[1..])
    else if answers[0] <= 0 then Taken(0, Failed, answers[1..])
    else
      var k := if answers[0] < n then answers[0] else n;
      var more := Offer(n - k, answers[1..], counted, room - k);
      Taken(k + more.count, more.end, more.left)
  }

  /** A file: the bytes it holds, those the backend has accepted and those it was
      given, and the answers the backend is going to give. */
  datatype File = File(held: seq<byte>, accepted: seq<byte>, given: seq<byte>, answers: seq<int>,
                       xfer: nat, limit: nat, frozen: bool, failed: bool)

  /** Until an error, what the backend took followed by what is still held is
      everything given, in order. */
  predicate Ordered(s: File) {
    !s.failed ==> s.accepted + s.held == s.given
  }

  /** buffered_flush */
  function Flushed(s: File): File {
    if s.failed then s
    else
      var t := Offer(|s.held|, s.answers, false, 0);
      s.(held := s.held[t.count..], accepted := s.accepted + s.held[..t.count], answers := t.left,
         frozen := s.frozen || t.end.Frozen?, failed := t.end.Failed?)
  }

  /** The loop of buffered_put_buffer, and the appending of the bytes that are left.
      A failed flush does not stop it. */
  function Sent(s: File, data: seq<byte>): File {
    var t := if s.frozen then Taken(0, Frozen, s.answers) else Offer(|data|, s.answers, true, s.limit - s.xfer);
    s.(held := s.held + (if t.end.Failed? then [] else data[t.count..]),
       accepted := s.accepted + data[..t.count], given := s.given + data, answers := t.left,
       xfer := s.xfer + t.count, frozen := s.frozen || t.end.Frozen?, failed := s.failed || t.end.Failed?)
  }

  /** buffered_put_buffer */
  function Put(s: File, data: seq<byte>): File {
    if s.failed then s.(given := s.given + data) else Sent(Flushed(s.(frozen := false)), data)
  }

  /** A flush loses and reorders nothing, whatever the backend does: also after a
      failure the bytes accepted are the first of those given. */
  lemma FlushKeeps(s: File)
    requires Ordered(s)
    ensures var t := Flushed(s);
      && Ordered(t) && t.given == s.given && (s.failed ==> t.failed)
      && (!t.failed ==> t.held == [] || (t.frozen && |t.answers| < |s.answers|))
      && (s.accepted <= s.given ==> t.accepted <= t.given)
  {
    var n := Offer(|s.held|, s.answers, false, 0).count;
    assert s.accepted + s.held == s.accepted + s.held[..n] + s.held[n..];
  }

  lemma SentKeeps(s: File, data: seq<byte>)
    requires Ordered(s) && (s.failed || s.frozen || s.held == [])
    ensures var t := Sent(s, data);
      && Ordered(t) && (s.failed ==> t.failed)
      && (!t.failed && !t.frozen && t.xfer <= t.limit ==> t.accepted == t.given && t.held == [])
      && (!s.failed && s.accepted <= s.given ==> t.accepted <= t.given)
  {
    hide Offer;
    if s.frozen {
      assert data[..0] == [] && data[0..] == data;
      assert s.given + data == s.accepted + (s.held + data) || s.failed;
    } else {
      var n := Offer(|data|, s.answers, true, s.limit - s.xfer).count;
      assert data == data[..n] + data[n..];
      if !s.failed {
        assert s.held == [] && s.accepted == s.given && [] + data[n..] == data[n..];
        assert s.given + data == s.given + data[..n] + data[n..];
      }
    }
  }

  /** While there is no error, a put keeps the bytes in order and holds none back
      unless the output is frozen or over its limit. */
  lemma PutKeeps(s: File, data: seq<byte>)
    requires Ordered(s)
    ensures var t := Put(s, data);
      && Ordered(t) && t.given == s.given + data && t.limit == s.limit
      && (s.failed ==> t == s.(given := s.given + data))
      && (s.xfer > s.limit ==> t.xfer == s.xfer)
      && (!t.failed && !t.frozen && t.xfer <= t.limit ==> t.accepted == t.given && t.held == [])
  {
    hide Offer;
    if !s.failed {
      var f := Flushed(s.(frozen := false));
      FlushKeeps(s.(frozen := false));
      SentKeeps(f, data);
    }
  }

  /** The last answer the backend gave, of those that are gone from `before`. */
  function LastAnswer(before: seq<int>, left: seq<int>): int
    requires |left| < |before|
  {
    before[|before| - |left| - 1]
  }

  /** The answer an offer ended with. */
  ghost predicate EndsWith(t: Taken, answers: seq<int>) {
    && (t.end.Frozen? ==> |t.left| < |answers| && LastAnswer(answers, t.left) == -EAGAIN)
    && (t.end.Failed? ==>
         |t.left| < |answers| && LastAnswer(answers, t.left) <= 0 && LastAnswer(answers, t.left) != -EAGAIN)
    && ((t.end.Done? || t.end.Limited?) && |t.left| < |answers| ==> LastAnswer(answers, t.left) > 0)
    && |t.left| <= |answers| && answers[|answers| - |t.left|..] == t.left
  }

  lemma OneMore(t: Taken, answers: seq<int>, k: nat)
    requires answers != [] && answers[0] > 0 && EndsWith(t, answers[1..])
    ensures EndsWith(From(k, t), answers)
  {
    var n := |t.left|;
    assert answers[1..][|answers| - 1 - n..] == answers[|answers| - n..];
    if n < |answers| - 1 {
      assert LastAnswer(answers, t.left) == LastAnswer(answers[1..], t.left);
    }
  }

  /** Why an offer ended can be read off the last answer. */
  lemma {:induction false} OfferEnds(n: nat, answers: seq<int>, counted: bool, room: int)
    ensures EndsWith(Offer(n, answers, counted, room), answers)
    decreases |answers|
  {
    hide Offer;
    OfferStep(n, answers, counted, room);
    if n > 0 && counted && room < 0 {
      OfferStops(n, answers, room);
    } else if n > 0 && answers != [] && answers[0] > 0 {
      hide EndsWith;
      var k := if answers[0] < n then answers[0] else n;
      OfferEnds(n - k, answers[1..], counted, room - k);
      OneMore(Offer(n - k, answers[1..], counted, room - k), answers, k);
    }
  }

  /** With answers of at most c bytes, no more than c bytes pass the limit. */
  lemma {:induction false} OfferWithinLimit(n: nat, answers: seq<int>, room: int, c: nat)
    requires room >= 0 && forall i :: 0 <= i < |answers| ==> answers[i] <= c
    ensures var t := Offer(n, answers, true, room); t.left != [] ==> t.count <= room + c
    decreases |answers|
  {
    if n != 0 && answers != [] && answers[0] > 0 {
      var k := if answers[0] < n then answers[0] else n;
      if room - k >= 0 {
        OfferWithinLimit(n - k, answers[1..], room - k, c);
      }
    }
  }

  /** A put ends frozen exactly when the last answer it got was EAGAIN; it is charged
      with the bytes of its data that were accepted, behind those of the buffer. */
  lemma PutFreezes(s: File, data: seq<byte>)
    requires !s.failed
    ensures var t := Put(s, data);
      && |t.answers| <= |s.answers|
      && (t.frozen <==> |t.answers| < |s.answers| && LastAnswer(s.answers, t.answers) == -EAGAIN)
      && 0 <= t.xfer - s.xfer <= |data|
      && exists j :: 0 <= j <= |s.held| && t.accepted == s.accepted + s.held[..j] + data[..t.xfer - s.xfer]
  {
    hide Offer;
    var f := Offer(|s.held|, s.answers, false, 0);
    OfferEnds(|s.held|, s.answers, false, 0);
    OfferEnds(|data|, f.left, true, s.limit - s.xfer);
    assert Put(s, data).accepted == s.accepted + s.held[..f.count] + data[..Put(s, data).xfer - s.xfer];
  }

  /** Below the limit, a backend that takes everything gets everything. */
  lemma PutGoes(s: File, data: seq<byte>)
    ensures !s.failed && s.xfer <= s.limit && s.answers == [] && Ordered(s) ==>
      var t := Put(s, data); t.accepted == t.given && !t.failed
  {
  }

  /** No byte is lost between the buffer and the backend. */
  lemma FlushLength(s: File)
    ensures |Flushed(s).accepted| + |Flushed(s).held| == |s.accepted| + |s.held|
  {
    hide Offer;
  }

  // ------------------------------------------------------- order after a failure

  predicate AllSame(bytes: seq<byte>) {
    forall i, j :: 0 <= i < |bytes| && 0 <= j < |bytes| ==> bytes[i] == bytes[j]
  }

  /** What a put leaves accepted is the first of the bytes given, however the backend
      answers. */
  ghost predicate AlwaysInOrder(s: File, data: seq<byte>) {
    forall answers: seq<int> :: Put(s.(answers := answers), data).accepted <= s.given + data
  }

  /** A caller can tell beforehand: nothing held, nothing put, or over the limit. The
      order of equal bytes does not show. */
  predicate OrderSafe(s: File, data: seq<byte>) {
    s.held == [] || data == [] || s.xfer > s.limit || AllSame(s.held + data)
  }

  lemma SafePutInOrder(s: File, data: seq<byte>)
    requires Ordered(s) && !s.failed && OrderSafe(s, data)
    ensures Put(s, data).accepted <= s.given + data
  {
    hide Offer;
    var f := Flushed(s.(frozen := false));
    FlushKeeps(s.(frozen := false));
    assert s.accepted <= s.given;
    if !f.failed {
      SentKeeps(f, data);
    } else {
      var n, k := Offer(|s.held|, s.answers, false, 0).count, |Sent(f, data).accepted| - |f.accepted|;
      assert s.held[..n] + data[..k] <= s.held + data by {
        if data != [] && s.xfer <= s.limit {
          assert AllSame(s.held + data);
          forall i | 0 <= i < n + k ensures (s.held[..n] + data[..k])[i] == (s.held + data)[i] {
            assert (s.held[..n] + data[..k])[i] == if i < n then (s.held + data)[i] else (s.held + data)[|s.held| + i - n];
          }
        }
      }
      assert s.given + data == s.accepted + (s.held + data);
      assert Sent(f, data).accepted == s.accepted + (s.held[..n] + data[..k]);
    }
  }

  /** The backend takes j of the held bytes, fails, and then takes all that is put. */
  lemma FailsAt(s: File, data: seq<byte>, j: nat) returns (answers: seq<int>)
    requires !s.failed && j < |s.held| && data != [] && s.xfer <= s.limit
    ensures Put(s.(answers := answers), data).accepted == s.accepted + s.held[..j] + data
  {
    answers := if j > 0 then [j, 0] else [0];
    assert [j, 0][1..] == [0] && [0][1..] == [];
    assert Offer(|s.held| - j, [0], false, 0 - j) == Taken(0, Failed, []);
    assert Offer(|s.held|, answers, false, 0) == Taken(j, Failed, []);
    assert data[..|data|] == data;
  }

  /** The first byte of the data that differs from the one before it. */
  lemma FirstOther(data: seq<byte>, all: seq<byte>) returns (i: nat)
    requires data != [] && !AllSame(all) && |all| >= |data| && all[|all| - |data|..] == data
    requires forall j :: 0 <= j < |all| - |data| ==> all[j] == data[0]
    ensures 0 < i < |data| && data[i] != data[i - 1]
  {
    i := 1;
    while i < |data| && data[i] == data[i - 1]
      invariant 0 < i <= |data| && forall j :: 0 <= j < i ==> data[j] == data[0]
    {
      i := i + 1;
    }
    if i == |data| {
      forall j | 0 <= j < |all| ensures all[j] == data[0] {
        if j >= |all| - |data| {
          assert all[j] == data[j - (|all| - |data|)];
        }
      }
      assert AllSame(all);
    }
  }

  /** A place where the data, put behind j of the held bytes, differs from what
      should be there. */
  lemma Misplaced(held: seq<byte>, data: seq<byte>) returns (j: nat, i: nat)
    requires held != [] && data != [] && !AllSame(held + data)
    ensures j < |held| && i < |data| && data[i] != (held + data)[j + i]
  {
    if j' :| 0 <= j' < |held| && held[j'] != data[0] {
      j, i := j', 0;
    } else {
      j := |held| - 1;
      i := FirstOther(data, held + data);
    }
  }

  lemma NotPrefix(a: seq<byte>, b: seq<byte>, k: nat)
    requires k < |a| && k < |b| && a[k] != b[k]
    ensures !(a <= b)
  {
  }

  /** In every other state a failing backend gets the bytes out of order. */
  lemma UnsafePutDisorders(s: File, data: seq<byte>) returns (answers: seq<int>)
    requires Ordered(s) && !s.failed && !OrderSafe(s, data)
    ensures !(Put(s.(answers := answers), data).accepted <= s.given + data)
  {
    var j, i := Misplaced(s.held, data);
    hide Put, AllSame;
    answers := FailsAt(s, data, j);
    var got, due := s.accepted + s.held[..j] + data, s.accepted + (s.held + data);
    assert s.given + data == due;
    NotPrefix(got, due, |s.accepted| + j + i);
  }

  /** Exactly when a put cannot disorder the bytes. */
  lemma PutInOrderIff(s: File, data: seq<byte>)
    requires Ordered(s) && !s.failed
    ensures AlwaysInOrder(s, data) <==> OrderSafe(s, data)
  {
    if OrderSafe(s, data) {
      forall answers: seq<int> ensures Put(s.(answers := answers), data).accepted <= s.given + data {
        SafePutInOrder(s.(answers := answers), data);
      }
    } else {
      var answers := UnsafePutDisorders(s, data);
    }
  }

  // ------------------------------------------------------------------ the code

  class BufferedFile {
    var buffer: array<byte>
    var bufferSize: nat
    var bytesXfer: nat
    var xferLimit: nat
    var freezeOutput: bool
    var hasError: bool
    /** buffered_close has freed the file. */
    var closed: bool

    /** The backend: how it is going to answer, and what it has accepted. */
    var answers: seq<int>
    ghost var accepted: seq<byte>

    /** Everything passed to buffered_put_buffer. */
    ghost var given: seq<byte>

    ghost function Held(): seq<byte>
      requires bufferSize <= buffer.Length
      reads this`buffer, this`bufferSize, buffer
    {
      buffer[..bufferSize]
    }

    ghost function View(): File
      requires bufferSize <= buffer.Length
      reads this, buffer
    {
      File(Held(), accepted, given, answers, bytesXfer, xferLimit, freezeOutput, hasError)
    }

    ghost predicate Valid()
      reads this, buffer
    {
      bufferSize <= buffer.Length && xferLimit < U64 && Ordered(View())
    }

    constructor (bytesPerSec: nat, answers: seq<int>)
      requires bytesPerSec < U64
      ensures Valid() && !closed && fresh(buffer)
      ensures View() == File([], [], [], answers, 0, bytesPerSec / 10, false, false)
    {
      buffer := new byte[0];
      bufferSize, bytesXfer, xferLimit, freezeOutput, hasError := 0, 0, bytesPerSec / 10, false, false;
      accepted, this.answers, given, closed := [], answers, [], false;
    }

    /** buffered_rate_limit */
    predicate RateLimited(): (r: bool)
      reads this
      ensures hasError ==> !r
    {
      !hasError && (freezeOutput || bytesXfer > xferLimit)
    }

    /** put_buffer of the backend: a short write, EAGAIN, or an error. */
    method Backend(data: seq<byte>) returns (ret: int)
      requires data != []
      modifies this`accepted, this`answers
      ensures answers == if old(answers) == [] then [] else old(answers)[1..]
      ensures ret == if old(answers) == [] || old(answers)[0] > |data| then |data| else old(answers)[0]
      ensures accepted == if ret > 0 then old(accepted) + data[..ret] else old(accepted)
    {
      ret := |data|;
      if answers != [] {
        if answers[0] < ret {
          ret := answers[0];
        }
        answers := answers[1..];
      }
      if ret > 0 {
        accepted := accepted + data[..ret];
      }
    }

    /** One offer of the flushing and of the sending loop. */
    method Ask(data: seq<byte>, ghost counted: bool, ghost room: int) returns (n: nat, more: bool)
      requires data != [] && !(counted && room < 0)
      modifies this`accepted, this`answers, this`freezeOutput, this`hasError
      ensures more ==>
        && 0 < n <= |data| && accepted == old(accepted) + data[..n]
        && freezeOutput == old(freezeOutput) && hasError == old(hasError)
        && Offer(|data|, old(answers), counted, room) == From(n, Offer(|data| - n, answers, counted, room - n))
      ensures !more ==> var t := Offer(|data|, old(answers), counted, room);
        && n == t.count == 0 && accepted == old(accepted) && answers == t.left && (t.end.Frozen? || t.end.Failed?)
        && freezeOutput == (old(freezeOutput) || t.end.Frozen?) && hasError == (old(hasError) || t.end.Failed?)
    {
      hide Offer;
      OfferStep(|data|, answers, counted, room);
      var ret := Backend(data);
      if ret == -EAGAIN {
        freezeOutput := true;
        return 0, false;
      }
      if ret <= 0 {
        hasError := true;
        return 0, false;
      }
      return ret, true;
    }

    /** buffered_append: grows the buffer when it is full. */
    method Append(data: seq<byte>)
      requires bufferSize <= buffer.Length
      modifies this`buffer, this`bufferSize, buffer
      ensures bufferSize <= buffer.Length && Held() == old(Held()) + data
      ensures buffer == old(buffer) || fresh(buffer)
      ensures buffer.Length == old(if |data| > buffer.Length - bufferSize then buffer.Length + |data| + 1024
                                   else buffer.Length)
    {
      ghost var was := Held();
      if |data| > buffer.Length - bufferSize {
        var grown := new byte[buffer.Length + |data| + 1024];
        forall i | 0 <= i < bufferSize {
          grown[i] := buffer[i];
        }
        buffer := grown;
        assert Held() == was;
      }
      var n := bufferSize;
      assert forall k :: 0 <= k < n ==> buffer[k] == was[k];
      forall k | n <= k < n + |data| {
        buffer[k] := data[k - n];
      }
      bufferSize := n + |data|;
      assert forall k :: 0 <= k < bufferSize ==> Held()[k] == (was + data)[k];
    }

    /** memmove of what is left to the front of the buffer. */
    method Drop(offset: nat)
      requires offset <= bufferSize <= buffer.Length
      modifies this`bufferSize, buffer
      ensures bufferSize <= buffer.Length && Held() == old(Held())[offset..]
    {
      var left := bufferSize - offset;
      forall i | 0 <= i < left {
        buffer[i] := buffer[offset + i];
      }
      bufferSize := left;
    }

    /** buffered_flush: afterwards the buffer is empty, or the output is frozen, or
        there was an error; no byte is reordered, and none lost but by an error. */
    method Flush()
      requires Valid()
      modifies this`bufferSize, this`freezeOutput, this`hasError, this`accepted, this`answers, buffer
      ensures Valid() && View() == Flushed(old(View()))
    {
      FlushKeeps(View());
      if hasError {
        return;
      }
      hide Ordered, Offer;
      var offset := FlushLoop();
      Drop(offset);
    }

    /** The loop of buffered_flush; `offset` bytes of the buffer are gone. */
    method FlushLoop() returns (offset: nat)
      requires bufferSize <= buffer.Length && !hasError
      modifies this`freezeOutput, this`hasError, this`accepted, this`answers
      ensures var t := Offer(bufferSize, old(answers), false, 0);
        && offset == t.count && answers == t.left && accepted == old(accepted) + Held()[..offset]
        && freezeOutput == (old(freezeOutput) || t.end.Frozen?) && hasError == t.end.Failed?
    {
      hide Offer;
      ghost var all := Offer(bufferSize, answers, false, 0);
      offset := 0;
      while offset < bufferSize
        invariant offset <= bufferSize && !hasError
        invariant accepted == old(accepted) + Held()[..offset] && freezeOutput == old(freezeOutput)
        invariant all == From(offset, Offer(bufferSize - offset, answers, false, 0 - offset))
      {
        ghost var taken := accepted;
        var n, more := Ask(buffer[offset..bufferSize], false, 0 - offset);
        if !more {
          return;
        }
        TakeMore(old(accepted), taken, Held(), offset, n);
        offset := offset + n;
      }
      OfferStep(0, answers, false, 0 - offset);
    }

    /** buffered_put_buffer. `notify` is whether put_ready is called at the end. */
    method PutBuffer(data: seq<byte>, pos: int) returns (ret: int, notify: bool)
      requires Valid() && !closed
      modifies this, buffer
      ensures Valid() && !closed && (buffer == old(buffer) || fresh(buffer))
      ensures View() == Put(old(View()), data)
      ensures given == old(given) + data && xferLimit == old(xferLimit)
      ensures old(hasError) ==> ret == -EINVAL && accepted == old(accepted) && !notify && hasError
      ensures ret == |data| || (ret == -EINVAL && hasError)
      ensures !old(hasError) ==>
        ret == if |accepted| + |Held()| == |old(accepted)| + |old(Held())| + |data| then |data| else -EINVAL
      ensures old(bytesXfer) > xferLimit ==> bytesXfer == old(bytesXfer)
      ensures old(!hasError && !freezeOutput && RateLimited()) ==> bytesXfer == old(bytesXfer)
      ensures old(!hasError && !RateLimited() && answers == []) ==> accepted == given && !hasError
      ensures !hasError && !RateLimited() ==> accepted == given
      ensures !old(hasError) && OrderSafe(old(View()), data) ==> accepted <= given
      ensures notify ==> pos == 0 && data == [] && bytesXfer <= xferLimit
      ensures !old(hasError) && pos == 0 && data == [] && bytesXfer <= xferLimit ==> notify
    {
      notify := false;
      hide Put, Ordered, OrderSafe, AllSame;
      PutKeeps(View(), data);
      PutGoes(View(), data);
      if hasError {
        given := given + data;
        return -EINVAL, notify;
      }
      if OrderSafe(View(), data) {
        SafePutInOrder(View(), data);
      }
      ret := PutBytes(data);
      if pos == 0 && data == [] {
        if bytesXfer <= xferLimit {
          notify := true;
        }
      }
    }

    /** buffered_put_buffer, when there has been no error. */
    method PutBytes(data: seq<byte>) returns (ret: int)
      requires Valid() && !hasError
      modifies this, buffer
      ensures bufferSize <= buffer.Length && (buffer == old(buffer) || fresh(buffer))
      ensures View() == Put(old(View()), data) && closed == old(closed)
      ensures ret == |data| || (ret == -EINVAL && hasError)
      ensures ret == if |accepted| + |Held()| == |old(accepted)| + |old(Held())| + |data| then |data| else -EINVAL
    {
      hide Put, Sent, Flushed;
      PutIs(View(), data);
      ghost var s := View();
      freezeOutput := false;
      assert View() == s.(frozen := false);
      FlushLength(View());
      Flush();
      ret := Send(data);
    }

    /** The rest of buffered_put_buffer: the bytes, and buffering what is left. */
    method Send(data: seq<byte>) returns (ret: int)
      requires bufferSize <= buffer.Length
      modifies this, buffer
      ensures bufferSize <= buffer.Length && (buffer == old(buffer) || fresh(buffer))
      ensures View() == Sent(old(View()), data) && closed == old(closed)
      ensures ret == |data| || (ret == -EINVAL && hasError)
      ensures ret == if |accepted| + |Held()| == |old(accepted)| + |old(Held())| + |data| then |data| else -EINVAL
    {
      hide Offer;
      var offset := SendLoop(data);
      given := given + data;
      if offset >= 0 {
        Append(data[offset..]);
        offset := |data|;
      } else {
        assert Held() + [] == Held();
      }
      ret := offset;
    }

    /** Bytes go straight to the backend until the transfer limit is passed. */
    method SendLoop(data: seq<byte>) returns (offset: int)
      modifies this`bytesXfer, this`freezeOutput, this`hasError, this`accepted, this`answers
      ensures var t := if old(freezeOutput) then Taken(0, Frozen, old(answers))
                       else Offer(|data|, old(answers), true, xferLimit - old(bytesXfer));
        && offset == (if t.end.Failed? then -EINVAL else t.count) && answers == t.left
        && accepted == old(accepted) + data[..t.count] && bytesXfer == old(bytesXfer) + t.count
        && freezeOutput == (old(freezeOutput) || t.end.Frozen?) && hasError == (old(hasError) || t.end.Failed?)
    {
      hide Offer;
      ghost var all := Offer(|data|, answers, true, xferLimit - bytesXfer);
      offset := 0;
      while !freezeOutput && offset < |data|
        invariant 0 <= offset <= |data| && freezeOutput == old(freezeOutput) && hasError == old(hasError)
        invariant accepted == old(accepted) + data[..offset] && bytesXfer == old(bytesXfer) + offset
        invariant freezeOutput ==> offset == 0 && answers == old(answers)
        invariant all == From(offset, Offer(|data| - offset, answers, true, xferLimit - bytesXfer))
      {
        if bytesXfer > xferLimit {
          OfferStops(|data| - offset, answers, xferLimit - bytesXfer);
          return;
        }
        ghost var taken := accepted;
        var n, more := Ask(data[offset..], true, xferLimit - bytesXfer);
        if !more {
          return if freezeOutput then offset else -EINVAL;
        }
        TakeMore(old(accepted), taken, data, offset, n);
        offset := offset + n;
        bytesXfer := bytesXfer + n;
      }
      OfferStep(0, answers, true, xferLimit - bytesXfer);
    }

    /** buffered_close: it keeps flushing, waiting whenever the output is frozen;
        closing without an error has delivered every byte given. */
    method Close()
      requires Valid() && !closed
      modifies this, buffer
      ensures Valid() && closed && given == old(given) && buffer == old(buffer)
      ensures !hasError ==> accepted == given
      ensures old(hasError) ==> hasError && accepted == old(accepted)
      ensures old(accepted) <= old(given) ==> accepted <= given
    {
      hide Offer, Flushed;
      while !hasError && bufferSize > 0
        invariant Valid() && given == old(given) && buffer == old(buffer)
        invariant old(hasError) ==> hasError && accepted == old(accepted)
        invariant old(accepted) <= old(given) ==> accepted <= given
        decreases !hasError, bufferSize > 0, |answers|
      {
        FlushKeeps(View());
        FlushFrame(View());
        Flush();
      }
      closed := true;
    }

    /** buffered_set_rate_limit with its int64_t and size_t: a rate above -10 sets a
        tenth of it, rounded toward zero; one below wraps round to a limit that
        2^63 - 1 bytes in a period do not reach. The result is the tenth itself. */
    method SetRateLimit(newRate: int) returns (limit: int)
      requires Valid() && !closed && -S63 <= newRate < S63
      modifies this`xferLimit
      ensures Valid()
      ensures hasError ==> xferLimit == old(xferLimit) && (limit - xferLimit) % U64 == 0 && -S63 <= limit < S63
      ensures !hasError ==> limit == CDiv(newRate, 10)
      ensures !hasError && newRate > -10 ==> xferLimit == limit
      ensures !hasError && newRate <= -10 ==>
        xferLimit == U64 + limit && (RateLimited() ==> freezeOutput || bytesXfer >= S63)
    {
      if !hasError {
        xferLimit := CDiv(newRate, 10) % U64;
      }
      limit := if xferLimit < S63 then xferLimit else xferLimit - U64;
    }

    /** buffered_rate_tick: a new period; `ready` is whether put_ready is called. After
        an error the file is closed, and must not be used again. */
    method RateTick() returns (ready: bool)
      requires Valid() && !closed
      modifies this, buffer
      ensures Valid() && given == old(given) && buffer == old(buffer)
      ensures closed == old(hasError) && (closed ==> hasError)
      ensures ready == !old(hasError || freezeOutput)
      ensures ready && !hasError && !freezeOutput ==> accepted == given && bytesXfer == 0
      ensures ready ==> View() == Flushed(old(View()).(xfer := 0))
      ensures !ready && !old(hasError) ==> View() == old(View())
      ensures old(accepted) <= old(given) ==> accepted <= given
    {
      if hasError {
        Close();
        return false;
      }
      if freezeOutput {
        return false;
      }
      NewPeriod();
      ready := true;
    }

    /** The allowance starts anew, and the buffer is flushed. */
    method NewPeriod()
      requires Valid() && !hasError && !freezeOutput
      modifies this, buffer
      ensures Valid() && closed == old(closed) && given == old(given) && buffer == old(buffer)
      ensures !hasError && !freezeOutput ==> accepted == given && bytesXfer == 0
      ensures View() == Flushed(old(View()).(xfer := 0))
      ensures old(accepted) <= old(given) ==> accepted <= given
    {
      hide Offer, Flushed, Ordered;
      ghost var s := View();
      bytesXfer := 0;
      assert View() == s.(xfer := 0);
      XferFrame(s);
      FlushKeeps(View());
      FlushFrame(View());
      Flush();
    }
  }

  /** What calls a file meets. */
  datatype Op = PutOp(data: seq<byte>, pos: int) | TickOp | LimitOp(rate: int)

  function Puts(ops: seq<Op>): seq<byte> {
    if ops == [] then []
    else
      var op := ops[|ops| - 1];
      Puts(ops[..|ops| - 1]) + if op.PutOp? then op.data else []
  }

  /** A whole life of the file: any puts, ticks and changes of the limit, in any
      order, then a close, which a tick may bring about after an error. Without an
      error, the backend has received exactly the bytes put, in order. */
  method Deliver(ops: seq<Op>, bytesPerSec: nat, answers: seq<int>) returns (f: BufferedFile)
    requires bytesPerSec < U64 && forall op :: op in ops && op.LimitOp? ==> -S63 <= op.rate < S63
    ensures f.closed && (!f.hasError ==> f.accepted == Puts(ops))
  {
    hide Flushed, Put, OrderSafe;
    f := new BufferedFile(bytesPerSec, answers);
    var i := 0;
    while i < |ops| && !f.closed
      invariant 0 <= i <= |ops| && f.Valid() && fresh(f) && fresh(f.buffer) && f.given == Puts(ops[..i])
      invariant f.closed ==> f.hasError
    {
      assert ops[..i + 1][..i] == ops[..i] && ops[i] in ops;
      match ops[i] {
        case PutOp(data, pos) => var _, _ := f.PutBuffer(data, pos);
        case TickOp => var _ := f.RateTick();
        case LimitOp(rate) => var _ := f.SetRateLimit(rate);
      }
      i := i + 1;
    }
    if !f.closed {
      assert ops[..|ops|] == ops;
      f.Close();
    }
  }

  /** One byte is held because the backend stalls; the flush ahead of the next byte
      fails, and that byte is accepted all the same, without the first. */
  method OutOfOrder() returns (f: BufferedFile)
    ensures f.given == [1, 2] && f.accepted == [2] && f.hasError
  {
    hide Put;
    StalledThenFailed();
    f := new BufferedFile(1000, [-EAGAIN, 0]);
    var _, _ := f.PutBuffer([1], 0);
    var _, _ := f.PutBuffer([2], 1);
  }

  lemma StalledThenFailed()
    ensures Put(File([], [], [], [-EAGAIN, 0], 0, 100, false, false), [1])
         == File([1], [], [1], [0], 0, 100, true, false)
    ensures Put(File([1], [], [1], [0], 0, 100, true, false), [2])
         == File([1], [2], [1, 2], [], 1, 100, false, true)
  {
    hide Offer;
    assert [-EAGAIN, 0][1..] == [0] && [0][1..] == [];
    OfferStep(0, [-EAGAIN, 0], false, 0);
    OfferStep(1, [-EAGAIN, 0], true, 100);
    OfferStep(1, [0], false, 0);
    OfferStep(1, [], true, 99);
    OfferStep(1, [], true, 100);
  }

  lemma OfferStep(n: nat, answers: seq<int>, counted: bool, room: int)
    ensures n == 0 ==> Offer(n, answers, counted, room) == Taken(0, Done, answers)
    ensures n > 0 && !(counted && room < 0) ==>
      Offer(n, answers, counted, room) ==
        if answers == [] then Taken(n, Done, [])
        else if answers[0] == -EAGAIN then Taken(0, Frozen, answers[1..])
        else if answers[0] <= 0 then Taken(0, Failed, answers[1..])
        else
          var k := if answers[0] < n then answers[0] else n;
          From(k, Offer(n - k, answers[1..], counted, room - k))
  {
  }

  lemma OfferStops(n: nat, answers: seq<int>, room: int)
    requires n > 0 && room < 0
    ensures Offer(n, answers, true, room) == Taken(0, Limited, answers)
  {
  }

  lemma PutIs(s: File, data: seq<byte>)
    requires !s.failed
    ensures Put(s, data) == Sent(Flushed(s.(frozen := false)), data)
  {
  }

  lemma XferFrame(s: File)
    requires Ordered(s)
    ensures Ordered(s.(xfer := 0))
  {
  }

  lemma FlushFrame(s: File)
    ensures Flushed(s).limit == s.limit && Flushed(s).xfer == s.xfer && (s.failed ==> Flushed(s) == s)
    ensures Flushed(s).held == [] ==> Ordered(Flushed(s)) ==> Flushed(s).failed || Flushed(s).accepted == Flushed(s).given
  {
  }

  lemma TakeMore(start: seq<byte>, taken: seq<byte>, bytes: seq<byte>, offset: nat, n: nat)
    requires offset + n <= |bytes| && taken == start + bytes[..offset]
    ensures taken + bytes[offset..][..n] == start + bytes[..offset + n]
  {
    assert bytes[..offset + n] == bytes[..offset] + bytes[offset..][..n];
  }

  /** An offer of which count bytes were taken before. */
  function From(count: nat, t: Taken): Taken {
    t.(count := count + t.count)
  }
}
