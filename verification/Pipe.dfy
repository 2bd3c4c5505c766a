/** Pipes under any interleaving of readers and writers that may sleep inside their copies (fs/pipe.c). */
module Pipe {
  import opened Basics

  const PIPE_BUF: nat := 4096

  /** What one writer put into the pipe while it held the lock. */
  datatype Session = Session(op: nat, bytes: seq<byte>)

  /** Who holds the lock: a reader with bytes to read yet and a chunk to copy out, a writer with a chunk to copy in. */
  datatype Holder = Nobody | Reading(count: nat, src: nat, chars: nat) | Writing(op: nat, dst: nat, chars: nat)

  /** Everything written, in the order of the lock. */
  function Flatten(s: seq<Session>): seq<byte> {
    if s == [] then [] else Flatten(s[..|s| - 1]) + s[|s| - 1].bytes
  }

  /** What one write call has put in so far. */
  function Sent(s: seq<Session>, op: nat): seq<byte> {
    if s == [] then [] else Sent(s[..|s| - 1], op) + if s[|s| - 1].op == op then s[|s| - 1].bytes else []
  }

  /** The last session grown. */
  function Grown(s: seq<Session>, bytes: seq<byte>): seq<Session>
    requires s != []
  {
    s[..|s| - 1] + [Session(s[|s| - 1].op, s[|s| - 1].bytes + bytes)]
  }

  lemma GrownFlat(s: seq<Session>, bytes: seq<byte>)
    requires s != []
    ensures Flatten(Grown(s, bytes)) == Flatten(s) + bytes
  {
    var n, g := |s| - 1, Grown(s, bytes);
    assert g[..n] == s[..n] && g[n].bytes == s[n].bytes + bytes;
    calc {
      Flatten(g);
      Flatten(s[..n]) + (s[n].bytes + bytes);
      Flatten(s[..n]) + s[n].bytes + bytes;
    }
  }

  lemma GrownSent(s: seq<Session>, bytes: seq<byte>, op: nat)
    requires s != []
    ensures Sent(Grown(s, bytes), op) == Sent(s, op) + if op == s[|s| - 1].op then bytes else []
  {
    var n, g := |s| - 1, Grown(s, bytes);
    assert g[..n] == s[..n] && g[n] == Session(s[n].op, s[n].bytes + bytes);
    if op == s[n].op {
      calc {
        Sent(g, op);
        Sent(s[..n], op) + (s[n].bytes + bytes);
        Sent(s[..n], op) + s[n].bytes + bytes;
      }
    }
  }

  lemma OpenFlat(s: seq<Session>, op: nat)
    ensures Flatten(s + [Session(op, [])]) == Flatten(s) && forall o :: Sent(s + [Session(op, [])], o) == Sent(s, o)
  {
    assert (s + [Session(op, [])])[..|s|] == s;
  }

  /** The ring: byte `i` of the stream lies at `i` modulo PIPE_BUF. */
  ghost predicate Stored(buf: seq<byte>, w: seq<byte>, lo: nat, hi: nat) {
    |buf| == PIPE_BUF && hi <= |w| && forall i :: lo <= i < hi ==> buf[i % PIPE_BUF] == w[i]
  }

  /** Bytes written into the free part of the ring leave the rest as it is. */
  lemma StoreMore(buf: seq<byte>, buf': seq<byte>, w: seq<byte>, lo: nat, hi: nat, n: nat)
    requires Stored(buf, w, lo, hi) && lo <= hi && hi + n <= |w| && hi + n <= lo + PIPE_BUF
    requires (hi % PIPE_BUF) + n <= PIPE_BUF
    requires |buf'| == PIPE_BUF && buf' == buf[..hi % PIPE_BUF] + w[hi..hi + n] + buf[hi % PIPE_BUF + n..]
    ensures Stored(buf', w, lo, hi + n)
  {
    forall i | lo <= i < hi + n ensures buf'[i % PIPE_BUF] == w[i] {
      SlotOf(lo, hi, n, i);
    }
  }

  /** Where byte `i` of the stream lies, against the chunk from `hi`. */
  lemma SlotOf(lo: nat, hi: nat, n: nat, i: nat)
    requires lo <= i < hi + n <= lo + PIPE_BUF && lo <= hi && hi % PIPE_BUF + n <= PIPE_BUF
    ensures if i < hi then !(hi % PIPE_BUF <= i % PIPE_BUF < hi % PIPE_BUF + n)
        else i % PIPE_BUF == hi % PIPE_BUF + (i - hi)
  {
    if i >= hi {
      ModAdd(hi, i - hi);
    } else if hi % PIPE_BUF <= i % PIPE_BUF < hi % PIPE_BUF + n {
      ModAdd(hi, i % PIPE_BUF - hi % PIPE_BUF);
      SameSlot(i, hi + (i % PIPE_BUF - hi % PIPE_BUF));
    }
  }

  lemma ModAdd(a: nat, k: nat)
    requires a % PIPE_BUF + k < PIPE_BUF
    ensures (a + k) % PIPE_BUF == a % PIPE_BUF + k
  {
  }

  lemma SameSlot(a: nat, b: nat)
    requires a % PIPE_BUF == b % PIPE_BUF && a < b
    ensures a + PIPE_BUF <= b
  {
  }

  // ---------------------------------------------------------------- the state

  /** The pipe, with what has been written and what has been handed to readers. */
  datatype State = State(
    buf: seq<byte>, start: nat, len: nat, lock: nat, holder: Holder, sessions: seq<Session>, out: seq<byte>)

  /** The data of each write call. */
  type Data = nat -> seq<byte>

  /** Stream positions: handed out, claimed by readers, stored, claimed by writers. */
  ghost predicate Positions(s: State) {
    var w := Flatten(s.sessions);
    && s.len + (if s.holder.Reading? then s.holder.chars else 0) + |s.out| == |w|
    && |w| <= |s.out| + PIPE_BUF && s.start < PIPE_BUF && s.start == (|w| - s.len) % PIPE_BUF
    && (s.holder.Reading? && s.holder.chars > 0 ==>
        s.holder.src == |s.out| % PIPE_BUF && s.holder.src + s.holder.chars <= PIPE_BUF)
    && (s.holder.Writing? ==> s.holder.chars <= s.len)
    && (s.holder.Writing? && s.holder.chars > 0 ==>
        s.holder.dst == (|w| - s.holder.chars) % PIPE_BUF && s.holder.dst + s.holder.chars <= PIPE_BUF)
  }

  ghost predicate Contents(s: State) {
    var w := Flatten(s.sessions);
    && |w| >= (if s.holder.Writing? then s.holder.chars else 0)
    && Stored(s.buf, w, |s.out|, |w| - if s.holder.Writing? then s.holder.chars else 0)
  }

  /** Each write call has sent a beginning of its data; a call of at most PIPE_BUF bytes all or, unless it has the
      lock, nothing. */
  ghost predicate Orderly(s: State, data: Data) {
    && (forall op: nat :: Sent(s.sessions, op) <= data(op))
    && (forall i :: 0 <= i < |s.sessions| ==> Whole(s, data, i))
    && (s.holder.Writing? ==> s.sessions != [])
    && (s.holder.Writing? ==> s.sessions[|s.sessions| - 1].op == s.holder.op)
    && (s.holder.Writing? ==> s.holder.chars <= |s.sessions[|s.sessions| - 1].bytes|)
  }

  /** Session `i`, if its call is to be atomic and it is over, holds all the bytes of the call. */
  ghost predicate Whole(s: State, data: Data, i: nat)
    requires i < |s.sessions|
  {
    var x := s.sessions[i];
    |data(x.op)| <= PIPE_BUF && !(s.holder.Writing? && i == |s.sessions| - 1) ==> x.bytes == data(x.op)
  }

  /** An atomic call that has the lock has room for all it has not sent. */
  ghost predicate Roomy(s: State, data: Data) {
    s.holder.Writing? && |data(s.holder.op)| <= PIPE_BUF ==>
      && s.sessions != [] && Sent(s.sessions, s.holder.op) == s.sessions[|s.sessions| - 1].bytes
      && |data(s.holder.op)| - |Sent(s.sessions, s.holder.op)| <= PIPE_BUF - s.len
  }

  ghost predicate Inv(s: State, data: Data) {
    && s.lock == (if s.holder.Nobody? then 0 else 1)
    && s.out <= Flatten(s.sessions)
    && Positions(s) && Contents(s) && Orderly(s, data) && Roomy(s, data)
  }

  // ---------------------------------------------------------------- all or nothing

  lemma {:induction false} SentWhole(s: seq<Session>, op: nat, d: seq<byte>)
    requires Sent(s, op) <= d && forall i :: 0 <= i < |s| && s[i].op == op ==> s[i].bytes == d
    ensures Sent(s, op) == [] || Sent(s, op) == d
  {
    if s != [] {
      var n := |s| - 1;
      assert forall i :: 0 <= i < n ==> s[..n][i] == s[i];
      if s[n].op == op {
        assert |Sent(s, op)| >= |d|;
      } else {
        assert Sent(s, op) == Sent(s[..n], op);
        SentWhole(s[..n], op, d);
      }
    }
  }

  /** A call of at most PIPE_BUF bytes that does not hold the lock has sent everything or nothing. */
  lemma AllOrNothing(s: State, data: Data, op: nat)
    requires Inv(s, data) && |data(op)| <= PIPE_BUF && !(s.holder.Writing? && s.holder.op == op)
    ensures Sent(s.sessions, op) == [] || Sent(s.sessions, op) == data(op)
  {
    hide Positions, Contents, Roomy;
    forall i | 0 <= i < |s.sessions| && s.sessions[i].op == op ensures s.sessions[i].bytes == data(op) {
      assert Whole(s, data, i);
    }
    SentWhole(s.sessions, op, data(op));
  }

  /** The bytes stand in the stream in one piece. */
  ghost predicate InStream(stream: seq<byte>, bytes: seq<byte>) {
    exists pre: seq<byte>, post: seq<byte> :: stream == pre + bytes + post
  }

  /** A call that has sent something has a session. */
  lemma {:induction false} SentBy(s: seq<Session>, op: nat) returns (i: nat)
    requires Sent(s, op) != []
    ensures i < |s| && s[i].op == op
  {
    var n := |s| - 1;
    if s[n].op == op { return n; }
    i := SentBy(s[..n], op);
  }

  /** What a session has sent stands in the stream in one piece. */
  lemma {:induction false} InOnePiece(s: seq<Session>, i: nat)
    requires i < |s|
    ensures InStream(Flatten(s), s[i].bytes)
  {
    var n := |s| - 1;
    if i == n {
      assert Flatten(s) == Flatten(s[..n]) + s[n].bytes + [];
    } else {
      InOnePiece(s[..n], i);
      var pre: seq<byte>, post: seq<byte> :| Flatten(s[..n]) == pre + s[..n][i].bytes + post;
      assert Flatten(s) == pre + s[i].bytes + (post + s[n].bytes);
    }
  }

  // ---------------------------------------------------------------- readers

  predicate CanRead(s: State) {
    s.len > 0 && s.lock == 0
  }

  /** A reader finds bytes and no lock, and takes it. */
  function ReadEnter(s: State, count: nat): State
    requires CanRead(s)
  {
    s.(lock := s.lock + 1, holder := Reading(count, 0, 0))
  }

  predicate CanClaimRead(s: State) {
    s.holder.Reading? && s.holder.chars == 0 && s.holder.count > 0 && s.len > 0 && s.start < PIPE_BUF
  }

  function ReadChars(s: State): nat
    requires CanClaimRead(s)
  {
    Min(Min(PIPE_BUF - s.start, s.holder.count), s.len)
  }

  /** A turn of the reader's loop up to its copy: the chunk is off the books before it is copied. */
  function ReadClaim(s: State): State
    requires CanClaimRead(s)
  {
    var chars := ReadChars(s);
    var h := Reading(s.holder.count - chars, s.start, chars);
    s.(start := (s.start + chars) % PIPE_BUF, len := s.len - chars, holder := h)
  }

  predicate CanCopyOut(s: State, k: nat) {
    s.holder.Reading? && 1 <= k <= s.holder.chars && s.holder.src + k <= |s.buf|
  }

  /** Some bytes of the chunk copied out, before the next sleep. */
  function CopyOut(s: State, k: nat): State
    requires CanCopyOut(s, k)
  {
    var h := s.holder;
    s.(out := s.out + s.buf[h.src..h.src + k], holder := Reading(h.count, h.src + k, h.chars - k))
  }

  predicate CanReadLeave(s: State) {
    s.holder.Reading? && s.holder.chars == 0 && (s.holder.count == 0 || s.len == 0) && s.lock > 0
  }

  function Leave(s: State): State
    requires s.lock > 0
  {
    s.(lock := s.lock - 1, holder := Nobody)
  }

  lemma ReadEnterInv(s: State, data: Data, count: nat)
    requires Inv(s, data) && CanRead(s)
    ensures Inv(ReadEnter(s, count), data)
  {
    hide Flatten, Sent, Stored;
    forall i | 0 <= i < |s.sessions| ensures Whole(ReadEnter(s, count), data, i) { assert Whole(s, data, i); }
  }

  lemma ReadClaimInv(s: State, data: Data)
    requires Inv(s, data) && CanClaimRead(s)
    ensures Inv(ReadClaim(s), data)
  {
    hide Flatten, Sent, Stored;
    var s', r := ReadClaim(s), |Flatten(s.sessions)| - s.len;
    ModStep(r, ReadChars(s));
    forall i | 0 <= i < |s.sessions| ensures Whole(s', data, i) { assert Whole(s, data, i); }
  }

  lemma ModStep(a: nat, k: nat)
    requires a % PIPE_BUF + k <= PIPE_BUF
    ensures (a + k) % PIPE_BUF == (a % PIPE_BUF + k) % PIPE_BUF
  {
  }

  /** A chunk of the ring that does not wrap is a piece of the stream. */
  lemma SliceOf(buf: seq<byte>, w: seq<byte>, n: nat, hi: nat, k: nat)
    requires Stored(buf, w, n, hi) && n + k <= hi && n % PIPE_BUF + k <= PIPE_BUF
    ensures buf[n % PIPE_BUF..n % PIPE_BUF + k] == w[n..n + k]
  {
    var src := n % PIPE_BUF;
    forall i | src <= i < src + k ensures buf[i] == w[n + (i - src)] {
      ModAdd(n, i - src);
      assert buf[(n + (i - src)) % PIPE_BUF] == w[n + (i - src)];
    }
  }

  lemma CopyOutBytes(s: State, data: Data, k: nat)
    requires Inv(s, data) && CanCopyOut(s, k)
    ensures CopyOut(s, k).out <= Flatten(s.sessions)
  {
    hide Flatten, Sent, Orderly, Stored, Roomy;
    var w, n := Flatten(s.sessions), |s.out|;
    SliceOf(s.buf, w, n, |w|, k);
    assert w[..n + k] == w[..n] + w[n..n + k];
  }

  lemma CopyOutInv(s: State, data: Data, k: nat)
    requires Inv(s, data) && CanCopyOut(s, k)
    ensures Inv(CopyOut(s, k), data)
  {
    CopyOutBytes(s, data, k);
    hide Flatten, Sent;
    var s' := CopyOut(s, k);
    if s'.holder.chars > 0 { ModAdd(|s.out|, k); }
    forall i | 0 <= i < |s.sessions| ensures Whole(s', data, i) { assert Whole(s, data, i); }
  }

  lemma ReadLeaveInv(s: State, data: Data)
    requires Inv(s, data) && CanReadLeave(s)
    ensures Inv(Leave(s), data)
  {
    hide Flatten, Sent, Stored;
    forall i | 0 <= i < |s.sessions| ensures Whole(Leave(s), data, i) { assert Whole(s, data, i); }
  }

  // ---------------------------------------------------------------- writers

  /** What is left to send of a call. */
  function Left(s: State, data: Data, op: nat): int {
    |data(op)| - |Sent(s.sessions, op)|
  }

  /** The free space a call waits for: room for all of it if that can be, else for a byte. */
  function Need(s: State, data: Data, op: nat): int {
    if Sent(s.sessions, op) == [] && |data(op)| <= PIPE_BUF then |data(op)| else 1
  }

  predicate CanWrite(s: State, data: Data, op: nat) {
    Left(s, data, op) > 0 && PIPE_BUF - s.len >= Need(s, data, op) && s.lock == 0
  }

  /** A writer finds room and no lock, and takes it. */
  function WriteEnter(s: State, op: nat): State {
    s.(lock := s.lock + 1, holder := Writing(op, 0, 0), sessions := s.sessions + [Session(op, [])])
  }

  predicate CanClaimWrite(s: State, data: Data) {
    s.holder.Writing? && s.holder.chars == 0 && Left(s, data, s.holder.op) > 0 && s.len < PIPE_BUF && s.sessions != []
  }

  function End(s: State): nat {
    (s.start + s.len) % PIPE_BUF
  }

  function WriteChars(s: State, data: Data): nat
    requires CanClaimWrite(s, data)
  {
    Min(Min(PIPE_BUF - End(s), Left(s, data, s.holder.op)), PIPE_BUF - s.len)
  }

  /** A turn of the writer's loop up to its copy. */
  function WriteClaim(s: State, data: Data): State
    requires CanClaimWrite(s, data)
  {
    var op, chars := s.holder.op, WriteChars(s, data);
    var n := |Sent(s.sessions, op)|;
    var sent := Grown(s.sessions, data(op)[n..n + chars]);
    s.(len := s.len + chars, holder := Writing(op, End(s), chars), sessions := sent)
  }

  predicate CanCopyIn(s: State, data: Data, k: nat) {
    && s.holder.Writing? && 1 <= k <= s.holder.chars && s.holder.dst + k <= |s.buf|
    && s.holder.chars <= |Sent(s.sessions, s.holder.op)| <= |data(s.holder.op)|
  }

  /** Some bytes of the chunk copied in, before the next sleep. */
  function CopyIn(s: State, data: Data, k: nat): State
    requires CanCopyIn(s, data, k)
  {
    var h := s.holder;
    var from := |Sent(s.sessions, h.op)| - h.chars;
    var buf := s.buf[..h.dst] + data(h.op)[from..from + k] + s.buf[h.dst + k..];
    s.(buf := buf, holder := Writing(h.op, h.dst + k, h.chars - k))
  }

  predicate CanWriteLeave(s: State, data: Data) {
    s.holder.Writing? && s.holder.chars == 0 && (Left(s, data, s.holder.op) == 0 || s.len == PIPE_BUF) && s.lock > 0
  }

  lemma WriteEnterInv(s: State, data: Data, op: nat)
    requires Inv(s, data) && CanWrite(s, data, op)
    ensures Inv(WriteEnter(s, op), data)
  {
    hide Flatten, Sent, Stored;
    var s' := WriteEnter(s, op);
    OpenFlat(s.sessions, op);
    if |data(op)| <= PIPE_BUF { AllOrNothing(s, data, op); }
    forall i | 0 <= i < |s'.sessions| ensures Whole(s', data, i) {
      if i < |s.sessions| { assert Whole(s, data, i); }
    }
  }

  lemma ClaimedStream(s: State, data: Data)
    requires Inv(s, data) && CanClaimWrite(s, data)
    ensures var n := |Sent(s.sessions, s.holder.op)|;
      Flatten(WriteClaim(s, data).sessions) == Flatten(s.sessions) + data(s.holder.op)[n..n + WriteChars(s, data)]
    ensures forall op: nat :: Sent(WriteClaim(s, data).sessions, op) <= data(op)
    ensures |Sent(WriteClaim(s, data).sessions, s.holder.op)| == |Sent(s.sessions, s.holder.op)| + WriteChars(s, data)
  {
    hide Flatten, Sent, Positions, Contents, Roomy;
    var op := s.holder.op;
    var n, k := |Sent(s.sessions, op)|, WriteChars(s, data);
    assert Sent(s.sessions, op) <= data(op);
    var bytes := data(op)[n..n + k];
    GrownFlat(s.sessions, bytes);
    forall o: nat ensures Sent(WriteClaim(s, data).sessions, o) <= data(o) {
      GrownSent(s.sessions, bytes, o);
      assert Sent(s.sessions, o) <= data(o);
      if o == op { assert data(op)[..n + k] == data(op)[..n] + bytes; }
    }
    GrownSent(s.sessions, bytes, op);
  }

  lemma ClaimedLength(s: State, data: Data)
    requires Inv(s, data) && CanClaimWrite(s, data)
    ensures |Flatten(WriteClaim(s, data).sessions)| == |Flatten(s.sessions)| + WriteChars(s, data)
    ensures Flatten(s.sessions) <= Flatten(WriteClaim(s, data).sessions)
  {
    ClaimedStream(s, data);
    assert Sent(s.sessions, s.holder.op) <= data(s.holder.op);
    hide Flatten, Sent, Positions, Contents, Orderly, Roomy, WriteClaim;
  }

  lemma WriteClaimPositions(s: State, data: Data)
    requires Inv(s, data) && CanClaimWrite(s, data)
    ensures Positions(WriteClaim(s, data))
  {
    ClaimedLength(s, data);
    hide Flatten, Sent, Orderly, Roomy, Grown, Contents;
    StartLen(|Flatten(s.sessions)| - s.len, s.len);
  }

  lemma StoredLonger(buf: seq<byte>, w: seq<byte>, w': seq<byte>, lo: nat, hi: nat)
    requires Stored(buf, w, lo, hi) && w <= w'
    ensures Stored(buf, w', lo, hi)
  {
  }

  lemma WriteClaimContents(s: State, data: Data)
    requires Inv(s, data) && CanClaimWrite(s, data)
    ensures Contents(WriteClaim(s, data))
  {
    ClaimedLength(s, data);
    hide Flatten, Sent, Orderly, Roomy, Grown, Positions, Stored;
    StoredLonger(s.buf, Flatten(s.sessions), Flatten(WriteClaim(s, data).sessions), |s.out|, |Flatten(s.sessions)|);
  }

  lemma StartLen(r: nat, len: nat)
    ensures (r % PIPE_BUF + len) % PIPE_BUF == (r + len) % PIPE_BUF
  {
  }

  lemma GrownAt(s: seq<Session>, bytes: seq<byte>)
    requires s != []
    ensures |Grown(s, bytes)| == |s| && Grown(s, bytes)[|s| - 1] == Session(s[|s| - 1].op, s[|s| - 1].bytes + bytes)
    ensures forall i :: 0 <= i < |s| - 1 ==> Grown(s, bytes)[i] == s[i]
  {
  }

  /** The sessions before the one that is open stay whole. */
  lemma StillWhole(s: State, data: Data, s': State)
    requires Orderly(s, data) && s.holder.Writing? && s'.holder.Writing? && |s'.sessions| == |s.sessions|
    requires forall i :: 0 <= i < |s.sessions| - 1 ==> s'.sessions[i] == s.sessions[i]
    ensures forall i :: 0 <= i < |s'.sessions| ==> Whole(s', data, i)
  {
    hide Sent;
    forall i | 0 <= i < |s'.sessions| ensures Whole(s', data, i) { assert Whole(s, data, i); }
  }

  /** The open session after a claim: the same call, longer by what was claimed. */
  lemma ClaimedLast(s: State, data: Data)
    requires Inv(s, data) && CanClaimWrite(s, data)
    ensures var s', n := WriteClaim(s, data), |s.sessions| - 1;
      && n >= 0 && |s'.sessions| == n + 1 && s'.holder.Writing? && s'.holder.op == s.holder.op
      && s'.sessions[n].op == s.sessions[n].op && s'.holder.chars <= |s'.sessions[n].bytes|
      && forall i :: 0 <= i < n ==> s'.sessions[i] == s.sessions[i]
  {
    assert Sent(s.sessions, s.holder.op) <= data(s.holder.op);
    hide Flatten, Sent, Positions, Contents, Roomy, Whole, Grown;
    var n := |Sent(s.sessions, s.holder.op)|;
    GrownAt(s.sessions, data(s.holder.op)[n..n + WriteChars(s, data)]);
  }

  lemma WriteClaimOrder(s: State, data: Data)
    requires Inv(s, data) && CanClaimWrite(s, data)
    ensures Orderly(WriteClaim(s, data), data)
  {
    ClaimedStream(s, data);
    ClaimedLast(s, data);
    hide Flatten, Sent, Positions, Contents, Roomy, Whole, Grown, WriteChars, WriteClaim;
    StillWhole(s, data, WriteClaim(s, data));
  }

  lemma WriteClaimRoom(s: State, data: Data)
    requires Inv(s, data) && CanClaimWrite(s, data)
    ensures Roomy(WriteClaim(s, data), data)
  {
    var op, n := s.holder.op, |Sent(s.sessions, s.holder.op)|;
    ClaimedStream(s, data);
    assert Sent(s.sessions, op) <= data(op);
    GrownSent(s.sessions, data(op)[n..n + WriteChars(s, data)], op);
    hide Flatten, Sent, Positions, Contents, Whole;
  }

  lemma WriteClaimInv(s: State, data: Data)
    requires Inv(s, data) && CanClaimWrite(s, data)
    ensures Inv(WriteClaim(s, data), data)
  {
    ClaimedLength(s, data);
    WriteClaimPositions(s, data);
    WriteClaimContents(s, data);
    WriteClaimOrder(s, data);
    WriteClaimRoom(s, data);
    hide Flatten, Sent, Positions, Contents, Orderly, Roomy, Grown;
  }

  lemma LastSession(s: seq<Session>, op: nat)
    requires s != [] && s[|s| - 1].op == op
    ensures Flatten(s) == Flatten(s[..|s| - 1]) + s[|s| - 1].bytes
    ensures Sent(s, op) == Sent(s[..|s| - 1], op) + s[|s| - 1].bytes
  {
  }

  lemma TailOf(a: seq<byte>, b: seq<byte>, k: nat)
    requires k <= |b|
    ensures (a + b)[|a + b| - k..] == b[|b| - k..]
  {
  }

  /** The end of the stream is the end of what the writer has sent. */
  lemma TailSame(s: seq<Session>, op: nat, k: nat)
    requires s != [] && s[|s| - 1].op == op && k <= |s[|s| - 1].bytes|
    ensures k <= |Flatten(s)| && k <= |Sent(s, op)|
    ensures Flatten(s)[|Flatten(s)| - k..] == Sent(s, op)[|Sent(s, op)| - k..]
  {
    var n, b := |s| - 1, s[|s| - 1].bytes;
    LastSession(s, op);
    hide Flatten, Sent;
    TailOf(Flatten(s[..n]), b, k);
    TailOf(Sent(s[..n], op), b, k);
  }

  /** The bytes to be copied in are the next bytes of the stream. */
  lemma CopyInBytes(s: State, data: Data, k: nat)
    requires Inv(s, data) && CanCopyIn(s, data, k)
    ensures var w, from := Flatten(s.sessions), |Sent(s.sessions, s.holder.op)| - s.holder.chars;
      && s.holder.chars <= |w| && data(s.holder.op)[from..from + k] == w[|w| - s.holder.chars..|w| - s.holder.chars + k]
  {
    hide Flatten, Sent, Positions, Contents, Roomy, Whole;
    var op, c := s.holder.op, s.holder.chars;
    TailSame(s.sessions, op, c);
    var w, sent := Flatten(s.sessions), Sent(s.sessions, op);
    var a, b := w[|w| - c..], sent[|sent| - c..];
    assert a[..k] == w[|w| - c..|w| - c + k];
    assert sent <= data(op);
    assert b[..k] == data(op)[|sent| - c..|sent| - c + k];
  }

  lemma CopyInPositions(s: State, data: Data, k: nat)
    requires Inv(s, data) && CanCopyIn(s, data, k)
    ensures Positions(CopyIn(s, data, k))
  {
    hide Flatten, Sent, Orderly, Roomy, Contents;
    if k < s.holder.chars { ModAdd(|Flatten(s.sessions)| - s.holder.chars, k); }
  }

  lemma CopyInStored(s: State, data: Data, k: nat)
    requires Inv(s, data) && CanCopyIn(s, data, k)
    ensures Contents(CopyIn(s, data, k))
  {
    CopyInBytes(s, data, k);
    BufSize(s);
    WriterPlace(s);
    CopyInShape(s, data, k);
    hide Flatten, Sent, Orderly, Roomy, Stored, Positions, CopyIn, CanCopyIn;
    var w, c := Flatten(s.sessions), s.holder.chars;
    StoreMore(s.buf, CopyIn(s, data, k).buf, w, |s.out|, |w| - c, k);
  }

  lemma CopyInShape(s: State, data: Data, k: nat)
    requires CanCopyIn(s, data, k)
    ensures var s', from := CopyIn(s, data, k), |Sent(s.sessions, s.holder.op)| - s.holder.chars;
      && 0 <= from && from + k <= |data(s.holder.op)| && 1 <= k <= s.holder.chars && s.holder.dst + k <= |s.buf|
      && s'.buf == s.buf[..s.holder.dst] + data(s.holder.op)[from..from + k] + s.buf[s.holder.dst + k..]
      && |s'.buf| == |s.buf| && s'.sessions == s.sessions && s'.out == s.out
      && s'.holder.Writing? && s'.holder.chars == s.holder.chars - k
  {
    hide Sent;
  }

  lemma WriterPlace(s: State)
    requires Positions(s) && s.holder.Writing? && s.holder.chars > 0
    ensures var w, c := Flatten(s.sessions), s.holder.chars;
      && |s.out| + c <= |w| <= |s.out| + PIPE_BUF
      && s.holder.dst == (|w| - c) % PIPE_BUF && s.holder.dst + c <= PIPE_BUF
  {
    hide Flatten;
  }

  lemma BufSize(s: State)
    requires Contents(s)
    ensures |s.buf| == PIPE_BUF
  {
  }

  lemma CopyInInv(s: State, data: Data, k: nat)
    requires Inv(s, data) && CanCopyIn(s, data, k)
    ensures Inv(CopyIn(s, data, k), data)
  {
    CopyInStored(s, data, k);
    CopyInPositions(s, data, k);
    hide Flatten, Sent, Positions, Contents;
    var s' := CopyIn(s, data, k);
    forall i | 0 <= i < |s'.sessions| ensures Whole(s', data, i) { assert Whole(s, data, i); }
  }

  /** A writer that is to be atomic leaves only when it has sent everything. */
  lemma WriteLeaveInv(s: State, data: Data)
    requires Inv(s, data) && CanWriteLeave(s, data)
    ensures Inv(Leave(s), data)
  {
    hide Flatten, Sent, Stored;
    var n, op := |s.sessions| - 1, s.holder.op;
    assert Sent(s.sessions, op) <= data(op);
    forall i | 0 <= i < |s.sessions| ensures Whole(Leave(s), data, i) {
      if i < n { assert Whole(s, data, i); }
    }
  }

  // ---------------------------------------------------------------- runs

  datatype Event =
    | RdEnter(count: nat) | RdClaim | RdCopy(k: nat) | RdLeave
    | WrEnter(op: nat) | WrClaim | WrCopy(k: nat) | WrLeave

  predicate Enabled(s: State, data: Data, e: Event) {
    match e
    case RdEnter(_) => CanRead(s)
    case RdClaim => CanClaimRead(s)
    case RdCopy(k) => CanCopyOut(s, k)
    case RdLeave => CanReadLeave(s)
    case WrEnter(op) => CanWrite(s, data, op)
    case WrClaim => CanClaimWrite(s, data)
    case WrCopy(k) => CanCopyIn(s, data, k)
    case WrLeave => CanWriteLeave(s, data)
  }

  function Next(s: State, data: Data, e: Event): State
    requires Enabled(s, data, e)
  {
    match e
    case RdEnter(count) => ReadEnter(s, count)
    case RdClaim => ReadClaim(s)
    case RdCopy(k) => CopyOut(s, k)
    case RdLeave => Leave(s)
    case WrEnter(op) => WriteEnter(s, op)
    case WrClaim => WriteClaim(s, data)
    case WrCopy(k) => CopyIn(s, data, k)
    case WrLeave => Leave(s)
  }

  /** A run of steps between sleeps, of any processes in any order the lock allows. */
  ghost predicate Run(states: seq<State>, data: Data) {
    && states != [] && Initial(states[0])
    && forall i :: 0 <= i < |states| - 1 ==> Steps(states[i], data, states[i + 1])
  }

  ghost predicate Steps(s: State, data: Data, s': State) {
    exists e: Event :: Enabled(s, data, e) && s' == Next(s, data, e)
  }

  predicate Initial(s: State) {
    |s.buf| == PIPE_BUF && s.start == s.len == s.lock == 0 && s.holder.Nobody? && s.sessions == [] && s.out == []
  }

  lemma StepInv(s: State, data: Data, e: Event)
    requires Inv(s, data) && Enabled(s, data, e)
    ensures Inv(Next(s, data, e), data)
  {
    hide Inv;
    match e {
      case RdEnter(count) => ReadEnterInv(s, data, count);
      case RdClaim => ReadClaimInv(s, data);
      case RdCopy(k) => CopyOutInv(s, data, k);
      case RdLeave => ReadLeaveInv(s, data);
      case WrEnter(op) => WriteEnterInv(s, data, op);
      case WrClaim => WriteClaimInv(s, data);
      case WrCopy(k) => CopyInInv(s, data, k);
      case WrLeave => WriteLeaveInv(s, data);
    }
  }

  lemma {:induction false} RunInv(states: seq<State>, data: Data, n: nat)
    requires Run(states, data) && n < |states|
    ensures Inv(states[n], data)
  {
    if n > 0 {
      RunInv(states, data, n - 1);
      hide Inv, Next, Enabled;
      assert Steps(states[n - 1], data, states[n - 1 + 1]);
      var e: Event :| Enabled(states[n - 1], data, e) && states[n] == Next(states[n - 1], data, e);
      StepInv(states[n - 1], data, e);
    }
  }

  /** In every state of every run: readers have a beginning of what was written, one process at most has the lock,
      each call has sent a beginning of its data, and one of at most PIPE_BUF bytes all or nothing, in one piece. */
  lemma PipeSafe(states: seq<State>, data: Data, n: nat, op: nat)
    requires Run(states, data) && n < |states|
    ensures states[n].out <= Flatten(states[n].sessions) && states[n].lock <= 1
    ensures (states[n].lock == 1 <==> !states[n].holder.Nobody?)
    ensures Sent(states[n].sessions, op) <= data(op)
    ensures |data(op)| <= PIPE_BUF && !(states[n].holder.Writing? && states[n].holder.op == op) ==>
      Sent(states[n].sessions, op) == [] || Sent(states[n].sessions, op) == data(op)
    ensures |data(op)| <= PIPE_BUF ==> forall i :: 0 <= i < |states[n].sessions| && states[n].sessions[i].op == op ==>
      (states[n].holder.Writing? && i == |states[n].sessions| - 1) || states[n].sessions[i].bytes == data(op)
    ensures Sent(states[n].sessions, op) != [] && |data(op)| <= PIPE_BUF ==>
      (states[n].holder.Writing? && states[n].holder.op == op) || InStream(Flatten(states[n].sessions), data(op))
  {
    RunInv(states, data, n);
    hide Run, Flatten, Sent, Positions, Contents, Roomy;
    var s := states[n];
    forall i | 0 <= i < |s.sessions| && s.sessions[i].op == op && |data(op)| <= PIPE_BUF
      ensures (s.holder.Writing? && i == |s.sessions| - 1) || s.sessions[i].bytes == data(op)
    {
      assert Whole(s, data, i);
    }
    if |data(op)| <= PIPE_BUF && !(s.holder.Writing? && s.holder.op == op) {
      AllOrNothing(s, data, op);
      if Sent(s.sessions, op) != [] {
        var i := SentBy(s.sessions, op);
        assert Whole(s, data, i);
        InOnePiece(s.sessions, i);
      }
    }
  }

  // ---------------------------------------------------------------- what a call gets

  lemma StepTaken(states: seq<State>, data: Data, n: nat) returns (e: Event)
    requires Run(states, data) && n + 1 < |states|
    ensures Enabled(states[n], data, e) && states[n + 1] == Next(states[n], data, e)
  {
    hide Enabled, Next;
    assert Steps(states[n], data, states[n + 1]);
    e :| Enabled(states[n], data, e) && states[n + 1] == Next(states[n], data, e);
  }

  /** Whoever has the lock can always go on. */
  lemma GoesOn(s: State, data: Data) returns (e: Event)
    requires Inv(s, data) && !s.holder.Nobody?
    ensures Enabled(s, data, e) && !e.RdEnter? && !e.WrEnter?
  {
    BufSize(s);
    hide Flatten, Sent, Stored;
    if s.holder.Reading? {
      e := if s.holder.chars > 0 then RdCopy(1) else if s.holder.count > 0 && s.len > 0 then RdClaim else RdLeave;
    } else {
      LastSent(s, data);
      e := if s.holder.chars > 0 then WrCopy(1) else if Left(s, data, s.holder.op) > 0 && s.len < PIPE_BUF then WrClaim
        else WrLeave;
    }
  }

  lemma LastSent(s: State, data: Data)
    requires Inv(s, data) && s.holder.Writing?
    ensures s.holder.chars <= |Sent(s.sessions, s.holder.op)| <= |data(s.holder.op)| && s.len <= PIPE_BUF
  {
    hide Flatten, Stored, Roomy, Whole;
  }

  /** With the lock free and something left to write a reader can go in or the writer can: they never wait for each
      other. */
  lemma NeverStuck(s: State, data: Data, op: nat, count: nat)
    requires Inv(s, data) && s.holder.Nobody? && |Sent(s.sessions, op)| < |data(op)|
    ensures Enabled(s, data, RdEnter(count)) || Enabled(s, data, WrEnter(op))
    ensures !Enabled(s, data, RdEnter(count)) ==> s.len == 0
  {
    hide Flatten, Sent, Stored;
  }

  /** What whoever has the lock has yet to do. */
  function Work(s: State, data: Data): int {
    match s.holder
    case Nobody => 0
    case Reading(count, _, chars) => 2 * count + chars
    case Writing(op, _, chars) => 2 * Left(s, data, op) + chars
  }

  lemma ClaimSends(s: State, data: Data)
    requires CanClaimWrite(s, data) && Inv(s, data)
    ensures Left(WriteClaim(s, data), data, s.holder.op) == Left(s, data, s.holder.op) - WriteChars(s, data)
    ensures WriteChars(s, data) >= 1
  {
    hide Flatten, Sent, Stored, Positions, Contents, Roomy;
    var op, n, chars := s.holder.op, |Sent(s.sessions, s.holder.op)|, WriteChars(s, data);
    GrownSent(s.sessions, data(op)[n..n + chars], op);
  }

  /** Every step brings the lock nearer to being given back. */
  lemma Settles(s: State, data: Data, e: Event)
    requires Inv(s, data) && !s.holder.Nobody? && Enabled(s, data, e)
    ensures Next(s, data, e).holder.Nobody? || 0 <= Work(Next(s, data, e), data) < Work(s, data)
  {
    if e.WrClaim? { ClaimSends(s, data); }
    if s.holder.Writing? { LastSent(s, data); }
    hide Flatten, Sent, Stored, Positions, Contents, Roomy, Orderly;
  }

  /** One step of a reader that keeps the lock. */
  lemma ReaderStep(s: State, data: Data, e: Event)
    requires Inv(s, data) && s.holder.Reading? && Enabled(s, data, e) && Next(s, data, e).holder.Reading?
    ensures var s' := Next(s, data, e);
      && s'.sessions == s.sessions && |s'.out| + s'.holder.chars + s'.len == |s.out| + s.holder.chars + s.len
      && |s'.out| + s'.holder.chars + s'.holder.count == |s.out| + s.holder.chars + s.holder.count
  {
    hide Flatten, Sent, Stored, Positions, Contents, Roomy, Orderly;
  }

  /** A stretch of a run in which one reader has the lock. */
  ghost predicate ReadsThrough(states: seq<State>, data: Data, i: nat, j: nat, count: nat) {
    && Run(states, data) && i < j < |states| && CanRead(states[i]) && states[i + 1] == ReadEnter(states[i], count)
    && forall k :: i < k <= j ==> states[k].holder.Reading?
  }

  lemma {:induction false} ReadTally(states: seq<State>, data: Data, i: nat, j: nat, count: nat)
    requires ReadsThrough(states, data, i, j, count)
    ensures var s, s' := states[i], states[j];
      && s'.holder.Reading? && s'.sessions == s.sessions
      && |s'.out| + s'.holder.chars + s'.len == |s.out| + s.len
      && |s'.out| + s'.holder.chars + s'.holder.count == |s.out| + count
    decreases j
  {
    hide Inv, Next, Enabled, Initial, Steps, CanRead;
    if j > i + 1 {
      ReadTally(states, data, i, j - 1, count);
      RunInv(states, data, j - 1);
      var e := StepTaken(states, data, j - 1);
      ReaderStep(states[j - 1], data, e);
    }
  }

  /** A reader that asks for `count` bytes leaves with as many as there were when it got the lock, up to `count`: the
      next ones of the stream. */
  lemma ReadGets(states: seq<State>, data: Data, i: nat, j: nat, count: nat)
    requires ReadsThrough(states, data, i, j, count) && CanReadLeave(states[j])
    ensures var n, w := Min(count, states[i].len), Flatten(states[i].sessions);
      |states[i].out| + n <= |w| && states[j].out == w[..|states[i].out| + n]
  {
    ReadTally(states, data, i, j, count);
    RunInv(states, data, j);
    hide Run, Sent, Positions, Contents, Roomy, Orderly, Flatten;
  }

  /** One step of a writer that keeps the lock. */
  lemma WriterStep(s: State, data: Data, e: Event)
    requires Inv(s, data) && s.holder.Writing? && Enabled(s, data, e) && Next(s, data, e).holder.Writing?
    ensures var s' := Next(s, data, e);
      s'.holder.op == s.holder.op
        && s'.len + Left(s', data, s.holder.op) == s.len + Left(s, data, s.holder.op) && s'.out == s.out
  {
    if e.WrClaim? { ClaimSends(s, data); }
    hide Flatten, Sent, Stored, Positions, Contents, Roomy, Orderly;
  }

  /** A stretch of a run in which one writer has the lock. */
  ghost predicate WritesThrough(states: seq<State>, data: Data, i: nat, j: nat, op: nat) {
    && Run(states, data) && i < j < |states| && CanWrite(states[i], data, op)
    && states[i + 1] == WriteEnter(states[i], op) && forall k :: i < k <= j ==> states[k].holder.Writing?
  }

  lemma {:induction false} WriteTally(states: seq<State>, data: Data, i: nat, j: nat, op: nat)
    requires WritesThrough(states, data, i, j, op)
    ensures var s, s' := states[i], states[j];
      && s'.holder.Writing? && s'.holder.op == op
      && s'.len + Left(s', data, op) == s.len + Left(s, data, op) && s'.out == s.out
    decreases j
  {
    hide Inv, Next, Enabled, Sent, CanWrite, Steps, Initial;
    if j == i + 1 {
      OpenFlat(states[i].sessions, op);
    } else {
      WriteTally(states, data, i, j - 1, op);
      RunInv(states, data, j - 1);
      var e := StepTaken(states, data, j - 1);
      WriterStep(states[j - 1], data, e);
    }
  }

  /** A writer leaves when it has sent all that was left of its call, or as much as there was room for when it got the
      lock; a call of at most PIPE_BUF bytes has sent it all at once. */
  lemma WriteSends(states: seq<State>, data: Data, i: nat, j: nat, op: nat)
    requires WritesThrough(states, data, i, j, op) && CanWriteLeave(states[j], data)
    ensures var left := Left(states[i], data, op);
      left - Left(states[j], data, op) == Min(left, PIPE_BUF - states[i].len)
    ensures |data(op)| <= PIPE_BUF && Sent(states[i].sessions, op) == [] ==> Sent(states[j].sessions, op) == data(op)
  {
    WriteTally(states, data, i, j, op);
    RunInv(states, data, j);
    LastSent(states[j], data);
    hide Run, Sent, Positions, Contents, Roomy, Flatten;
  }
}
