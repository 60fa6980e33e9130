/** A FIFO channel that may die at any message. */
module Channel {
  import opened Common
  import opened Protocol

  function DataMsgs(cs: seq<DropData>): seq<Msg> {
    seq(|cs|, i requires 0 <= i < |cs| => DataMsg(cs[i]))
  }

  function Next(inbox: seq<Msg>): (r: (Option<Msg>, seq<Msg>))
    ensures r.0.Some? ==> !r.0.value.Heartbeat? && |r.1| < |inbox|
    decreases |inbox|
  {
    if inbox == [] then (None, [])
    else if inbox[0].Heartbeat? then Next(inbox[1..])
    else (Some(inbox[0]), inbox[1..])
  }

  /** How many heartbeats come before the next message. */
  function Heartbeats(inbox: seq<Msg>): nat {
    if inbox == [] || !inbox[0].Heartbeat? then 0 else 1 + Heartbeats(inbox[1..])
  }

  /** Taking a message passes over the heartbeats before it, and over nothing else. */
  lemma {:induction false} NextSkipsHeartbeats(inbox: seq<Msg>) returns (n: nat)
    ensures n <= |inbox| && n == Heartbeats(inbox) && forall i | 0 <= i < n :: inbox[i] == Heartbeat
    ensures n == |inbox| ==> Next(inbox) == (None, [])
    ensures n < |inbox| ==> inbox[n] != Heartbeat && Next(inbox) == (Some(inbox[n]), inbox[n + 1..])
    decreases |inbox|
  {
    if inbox == [] || !inbox[0].Heartbeat? {
      n := 0;
    } else {
      var m := NextSkipsHeartbeats(inbox[1..]);
      n := m + 1;
      assert forall i | 1 <= i < n :: inbox[i] == inbox[1..][i - 1];
    }
  }

  lemma AppendMsg(cs: seq<DropData>, c: DropData)
    ensures DataMsgs(cs + [c]) == DataMsgs(cs) + [DataMsg(c)]
  {
  }

  /**
   * One end of the FIFO channel: what will still arrive, what was sent, and how
   * many of these sends still succeed. Answers to heartbeats are counted apart.
   */
  class Conn {
    var inbox: seq<Msg>
    var outbox: seq<Msg>
    var sendsLeft: nat
    var echoes: nat

    constructor (inbox: seq<Msg>, sendsLeft: nat)
      ensures this.inbox == inbox && outbox == [] && this.sendsLeft == sendsLeft && echoes == 0
    {
      this.inbox, outbox, this.sendsLeft, echoes := inbox, [], sendsLeft, 0;
    }

    /**
     * The next message other than a heartbeat, or None when the channel has died; each
     * heartbeat before it is answered.
     */
    method Receive() returns (m: Option<Msg>)
      modifies this`inbox, this`echoes
      ensures (m, inbox) == Next(old(inbox))
      ensures echoes == old(echoes) + Heartbeats(old(inbox))
      ensures |inbox| <= |old(inbox)| && (m.Some? ==> |inbox| < |old(inbox)|)
    {
      while inbox != [] && inbox[0].Heartbeat?
        invariant Next(inbox) == Next(old(inbox)) && |inbox| <= |old(inbox)|
        invariant echoes + Heartbeats(inbox) == old(echoes) + Heartbeats(old(inbox))
        decreases |inbox|
      {
        inbox, echoes := inbox[1..], echoes + 1;
      }
      if inbox == [] { return None; }
      m := Some(inbox[0]);
      inbox := inbox[1..];
    }

    method Send(m: Msg) returns (ok: bool)
      modifies this`outbox, this`sendsLeft
      ensures ok == (old(sendsLeft) > 0)
      ensures outbox == if ok then old(outbox) + [m] else old(outbox)
      ensures sendsLeft == if ok then old(sendsLeft) - 1 else 0
    {
      ok := sendsLeft > 0;
      if ok { outbox, sendsLeft := outbox + [m], sendsLeft - 1; }
    }

    method SendChunk(chunk: DropData, ghost base: seq<Msg>, ghost done: seq<DropData>) returns (ok: bool)
      requires outbox == base + DataMsgs(done)
      modifies this`outbox, this`sendsLeft
      ensures ok == (old(sendsLeft) > 0)
      ensures outbox == base + DataMsgs(if ok then done + [chunk] else done)
      ensures sendsLeft == if ok then old(sendsLeft) - 1 else 0
    {
      ok := Send(DataMsg(chunk));
      AppendMsg(done, chunk);
    }
  }

  lemma NoMsgs()
    ensures DataMsgs([]) == []
  {
  }
}
