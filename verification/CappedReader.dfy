/** cappedReader of internal/sources/sources.go over an arbitrary io.Reader: short reads, bytes together with
    EOF, empty reads and errors included. */
module CappedReader {

  /** nil, io.EOF, any other error of the wrapped reader, and the configured cause. */
  datatype Status = Fine | Eof | Broken | TooLarge

  /** What the wrapped reader would like to answer next. */
  datatype Reply = Reply(n: nat, status: Status)

  /** What a reader at position at of its data makes of a reply: never past the end or the buffer, EOF only at the
      end. */
  function Served(data: string, at: nat, want: nat, reply: Reply): Reply
    requires at <= |data|
  {
    var room := if want < |data| - at then want else |data| - at;
    var n := if reply.n < room then reply.n else room;
    Reply(n, if reply.status.TooLarge? || (reply.status.Eof? && at + n < |data|) then Fine else reply.status)
  }

  /** What an io.Reader may answer at that position into a buffer of that size. */
  ghost predicate Legal(data: string, at: nat, want: nat, reply: Reply) {
    && reply.n <= want && at + reply.n <= |data| && !reply.status.TooLarge?
    && (reply.status.Eof? ==> at + reply.n == |data|)
  }

  /** Every answer is a legal one, and every legal one can be given. */
  lemma ServedIff(data: string, at: nat, want: nat, reply: Reply)
    requires at <= |data|
    ensures Legal(data, at, want, Served(data, at, want, reply))
    ensures Legal(data, at, want, reply) ==> Served(data, at, want, reply) == reply
  {
  }

  /** An io.Reader: it hands out data in order, as its replies have it. */
  class Stream {
    const data: string
    var at: nat
    var replies: seq<Reply>

    constructor (data: string, replies: seq<Reply>)
      ensures this.data == data && at == 0 && this.replies == replies
    {
      this.data, this.at, this.replies := data, 0, replies;
    }

    /** Once the list runs out, a reader that gives all it can. */
    function Next(): Reply
      reads this
    {
      if replies == [] then Reply(|data|, Eof) else replies[0]
    }

    method Read(want: nat) returns (out: string, status: Status)
      requires at <= |data|
      modifies this
      ensures var r := Served(data, old(at), want, old(Next())); at == old(at) + r.n && status == r.status
      ensures old(at) <= at <= |data| && out == data[old(at)..at]
      ensures replies == if old(replies) == [] then [] else old(replies)[1..]
    {
      var r := Served(data, at, want, Next());
      replies := if replies == [] then [] else replies[1..];
      out := data[at..at + r.n];
      at := at + r.n;
      status := r.status;
    }
  }

  /** at counts bytes taken from the wrapped reader. */
  datatype State = State(at: nat, remaining: int, tripped: bool, eofSeen: bool)

  /** The bytes delivered, the status and the state after one Read. */
  datatype Outcome = Outcome(n: nat, status: Status, state: State)

  /** Budget spent: a further byte trips, and so does an empty answer. */
  function Probe(s: State, r: Reply): Outcome {
    if r.n > 0 || r.status.Fine? then Outcome(0, TooLarge, s.(at := s.at + r.n, tripped := true))
    else Outcome(0, r.status, s.(eofSeen := r.status.Eof?))
  }

  /** One Read into a buffer of size want, when the wrapped reader's next reply is this. */
  function Step(data: string, s: State, want: nat, reply: Reply): Outcome
    requires s.at <= |data|
  {
    if s.tripped then Outcome(0, TooLarge, s)
    else if s.eofSeen then Outcome(0, Eof, s)
    else if s.remaining <= 0 then Probe(s, Served(data, s.at, 1, reply))
    else
      var r := Served(data, s.at, if want > s.remaining then s.remaining else want, reply);
      Outcome(r.n, r.status, State(s.at + r.n, s.remaining - r.n, false, r.status.Eof?))
  }

  class Reader {
    const inner: Stream
    var remaining: int
    var tripped: bool
    var eofSeen: bool

    ghost function Now(): State
      reads this, inner
    {
      State(inner.at, remaining, tripped, eofSeen)
    }

    constructor (inner: Stream, cap: int)
      ensures this.inner == inner && Now() == State(inner.at, cap, false, false)
    {
      this.inner, remaining, tripped, eofSeen := inner, cap, false, false;
    }

    method Read(want: nat) returns (out: string, status: Status)
      requires inner.at <= |inner.data|
      modifies this, inner
      ensures Outcome(|out|, status, Now()) == Step(inner.data, old(Now()), want, old(inner.Next()))
      ensures |out| <= want && (out != [] ==> out == inner.data[old(inner.at)..inner.at])
    {
      if tripped { return "", TooLarge; }
      if eofSeen { return "", Eof; }
      if remaining <= 0 {
        var probe, answer := inner.Read(1);
        if |probe| > 0 || answer.Fine? {
          tripped := true;
          return "", TooLarge;
        }
        eofSeen := answer.Eof?;
        return "", answer;
      }
      out, status := inner.Read(if want > remaining then remaining else want);
      remaining := remaining - |out|;
      eofSeen := status.Eof?;
    }
  }

  // -- every sequence of reads -----------------------------------------------------

  /** A call, the reply the wrapped reader has ready, and what came of it. */
  datatype Call = Call(want: nat, reply: Reply, n: nat, status: Status)

  ghost predicate Reads(data: string, s: State, c: Call, s': State) {
    s.at <= |data| && Step(data, s, c.want, c.reply) == Outcome(c.n, c.status, s')
  }

  ghost predicate Run(data: string, cap: int, states: seq<State>, calls: seq<Call>) {
    && |states| == |calls| + 1 && states[0] == State(0, cap, false, false)
    && forall i :: 0 <= i < |calls| ==> Reads(data, states[i], calls[i], states[i + 1])
  }

  function Delivered(calls: seq<Call>): nat {
    if calls == [] then 0 else Delivered(calls[..|calls| - 1]) + calls[|calls| - 1].n
  }

  function Budget(cap: int): nat { if cap < 0 then 0 else cap }

  /** What holds after any number of reads: the bytes delivered are the first ones of the stream. */
  ghost predicate Kept(data: string, cap: int, s: State, delivered: nat) {
    && delivered <= Budget(cap) && delivered <= s.at <= |data| && s.remaining == cap - delivered
    && (!s.tripped ==> s.at == delivered)
    && (s.tripped ==> delivered == Budget(cap) && !s.eofSeen && s.at <= delivered + 1)
    && (s.eofSeen ==> delivered == |data|)
  }

  lemma {:induction false} RunKeeps(data: string, cap: int, states: seq<State>, calls: seq<Call>)
    requires Run(data, cap, states, calls)
    ensures Kept(data, cap, states[|calls|], Delivered(calls))
    decreases |calls|
  {
    if calls == [] {
    } else {
      var n := |calls| - 1;
      RunKeeps(data, cap, states[..n + 1], calls[..n]);
      assert Reads(data, states[n], calls[n], states[n + 1]);
    }
  }

  /** Never more than cap bytes and always a prefix; EOF only when the whole stream was delivered; the cap error
      only after exactly cap bytes, because there was another byte or because the stream stalled there. */
  lemma ReadsArePrefix(data: string, cap: int, states: seq<State>, calls: seq<Call>)
    requires Run(data, cap, states, calls) && calls != []
    ensures Delivered(calls) <= |data| && Delivered(calls) <= Budget(cap)
    ensures calls[|calls| - 1].n > 0 ==> states[|calls|].at == Delivered(calls)
    ensures calls[|calls| - 1].status == Eof ==> Delivered(calls) == |data|
    ensures calls[|calls| - 1].status == TooLarge ==>
        Delivered(calls) == Budget(cap) && (states[|calls|].at == Budget(cap) || |data| > Budget(cap))
  {
    var n := |calls| - 1;
    RunKeeps(data, cap, states, calls);
    RunKeeps(data, cap, states[..n + 1], calls[..n]);
    assert Reads(data, states[n], calls[n], states[n + 1]);
  }

  ghost predicate Verdict(c: Call) { c.status == Eof || c.status == TooLarge }

  /** What the wrapped reader answers a call made in that state, which reaches it. */
  ghost function Answer(data: string, s: State, c: Call): Reply
    requires s.at <= |data|
  {
    Served(data, s.at, if s.remaining <= 0 then 1 else if c.want > s.remaining then s.remaining else c.want, c.reply)
  }

  ghost predicate Asked(s: State) { !s.tripped && !s.eofSeen }

  /** At the cap, where one more byte is asked for, the wrapped reader does not answer without a byte or an error. */
  ghost predicate NoStall(data: string, states: seq<State>, calls: seq<Call>) {
    && |states| == |calls| + 1
    && forall i :: 0 <= i < |calls| && states[i].at <= |data| && Asked(states[i]) && states[i].remaining <= 0 ==>
        Answer(data, states[i], calls[i]) != Reply(0, Fine)
  }

  lemma TrippedByByte(data: string, cap: int, states: seq<State>, calls: seq<Call>, n: nat)
    requires Run(data, cap, states, calls) && NoStall(data, states, calls) && n <= |calls| && states[n].tripped
    ensures |data| > Budget(cap)
    decreases n
  {
    if n > 0 {
      RunKeeps(data, cap, states[..n], calls[..n - 1]);
      assert Reads(data, states[n - 1], calls[n - 1], states[n]);
      if states[n - 1].tripped { TrippedByByte(data, cap, states, calls, n - 1); }
    }
  }

  /** Once a verdict is in, the stream decides it: EOF iff it fits the budget. */
  lemma VerdictIff(data: string, cap: int, states: seq<State>, calls: seq<Call>)
    requires Run(data, cap, states, calls) && calls != [] && NoStall(data, states, calls)
    requires Verdict(calls[|calls| - 1])
    ensures calls[|calls| - 1].status == Eof <==> |data| <= Budget(cap)
  {
    var n := |calls| - 1;
    RunKeeps(data, cap, states, calls);
    assert Reads(data, states[n], calls[n], states[n + 1]);
    if states[n + 1].tripped { TrippedByByte(data, cap, states, calls, n + 1); }
  }

  /** Below the cap the wrapped reader answers with a byte or EOF, at the cap with anything but an error; and it is
      asked for something. */
  ghost predicate Lively(data: string, states: seq<State>, calls: seq<Call>) {
    && |states| == |calls| + 1
    && forall i :: 0 <= i < |calls| && states[i].at <= |data| && Asked(states[i]) ==>
        var r := Answer(data, states[i], calls[i]);
        !r.status.Broken? && calls[i].want > 0 && (states[i].remaining > 0 ==> r.n > 0 || r.status.Eof?)
  }

  lemma {:induction false} EveryReadDelivers(data: string, cap: int, states: seq<State>, calls: seq<Call>, n: nat)
    requires Run(data, cap, states, calls) && Lively(data, states, calls) && n <= |calls|
    requires forall i :: 0 <= i < n ==> !Verdict(calls[i])
    ensures Delivered(calls[..n]) >= n && Asked(states[n])
    decreases n
  {
    if n > 0 {
      EveryReadDelivers(data, cap, states, calls, n - 1);
      RunKeeps(data, cap, states[..n], calls[..n - 1]);
      assert Reads(data, states[n - 1], calls[n - 1], states[n]);
      assert calls[..n][..n - 1] == calls[..n - 1];
    }
  }

  /** A verdict comes, after one read more than there are bytes to hand out at the latest: nobody reads on for ever, not
      even from a stream that stalls at the cap. */
  lemma VerdictComes(data: string, cap: int, states: seq<State>, calls: seq<Call>)
    requires Run(data, cap, states, calls) && Lively(data, states, calls)
    requires |calls| > |data| || |calls| > Budget(cap)
    ensures exists i :: 0 <= i < |calls| && Verdict(calls[i])
  {
    assert calls[..|calls|] == calls;
    RunKeeps(data, cap, states, calls);
    if forall i :: 0 <= i < |calls| ==> !Verdict(calls[i]) { EveryReadDelivers(data, cap, states, calls, |calls|); }
  }

  /** Verdicts are final. */
  lemma {:induction false} VerdictIsFinal(data: string, cap: int, states: seq<State>, calls: seq<Call>, i: nat, j: nat)
    requires Run(data, cap, states, calls) && i <= j < |calls|
    requires calls[i].status == Eof || calls[i].status == TooLarge
    ensures calls[j].status == calls[i].status && (j > i ==> calls[j].n == 0) && states[j + 1] == states[i + 1]
    decreases j
  {
    assert Reads(data, states[j], calls[j], states[j + 1]);
    if i == j {
    } else {
      VerdictIsFinal(data, cap, states, calls, i, j - 1);
      assert Reads(data, states[i], calls[i], states[i + 1]);
      RunKeeps(data, cap, states[..j + 1], calls[..j]);
    }
  }

  lemma Extend(data: string, cap: int, states: seq<State>, calls: seq<Call>, c: Call, s: State)
    requires Run(data, cap, states, calls) && Reads(data, states[|calls|], c, s)
    ensures Run(data, cap, states + [s], calls + [c]) && Delivered(calls + [c]) == Delivered(calls) + c.n
  {
    assert (calls + [c])[..|calls|] == calls;
  }

  /** What a consumer sees that reads on into buffers of any sizes, over any wrapped reader. */
  method ReadOn(reader: Reader, wants: seq<nat>, ghost cap: int) returns (got: string, last: Status)
    requires reader.Now() == State(0, cap, false, false)
    modifies reader, reader.inner
    ensures got <= reader.inner.data && |got| <= Budget(cap)
    ensures last == Eof ==> got == reader.inner.data
    ensures last == TooLarge ==> |got| == Budget(cap)
  {
    var data := reader.inner.data;
    ghost var states, calls := [reader.Now()], [];
    got, last := "", Broken;
    for i := 0 to |wants|
      invariant |calls| == i && Run(data, cap, states, calls) && states[i] == reader.Now()
      invariant Delivered(calls) <= |data| && got == data[..Delivered(calls)]
      invariant |got| <= Budget(cap) && (last == Eof ==> got == data) && (last == TooLarge ==> |got| == Budget(cap))
    {
      ghost var before, reply := reader.Now(), reader.inner.Next();
      RunKeeps(data, cap, states, calls);
      var out;
      out, last := reader.Read(wants[i]);
      ghost var c := Call(wants[i], reply, |out|, last);
      Extend(data, cap, states, calls, c, reader.Now());
      states, calls := states + [reader.Now()], calls + [c];
      ReadsArePrefix(data, cap, states, calls);
      got := got + out;
    }
  }
}
