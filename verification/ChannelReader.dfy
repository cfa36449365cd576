/** A reader over a channel of messages: the messages' bytes, in order, cut to whatever sizes the
    caller reads. */
module ChannelReader {
  import opened Seqs
  import opened Bytes

  /** The channel's messages still to be received and whether it is closed after them, with the
      reader's buffer and its own closed flag. */
  datatype Stream = Stream(ch: seq<seq<byte>>, chCloses: bool, buf: seq<byte>, closed: bool)

  /** `Blocks` is a receive from an open channel that nobody sends on any more. */
  datatype Outcome = Data(bytes: seq<byte>) | Eof | Blocks

  /** The receive loop: past empty messages to the first that has bytes, or to the channel's end. */
  function Receive(s: Stream): Stream
    requires s.buf == []
    decreases |s.ch|
  {
    if s.ch == [] then s.(closed := s.closed || s.chCloses)
    else if s.ch[0] != [] then s.(ch := s.ch[1..], buf := s.ch[0])
    else Receive(s.(ch := s.ch[1..]))
  }

  function Refill(s: Stream): Stream {
    if s.buf == [] && !s.closed then Receive(s) else s
  }

  function Min(a: nat, b: nat): nat { if a < b then a else b }

  /** One Read into a slice of `size` bytes. */
  function AfterRead(s: Stream, size: nat): Stream {
    var t := Refill(s);
    t.(buf := t.buf[Min(size, |t.buf|)..])
  }

  function ReadOutcome(s: Stream, size: nat): Outcome {
    var t := Refill(s);
    if t.buf == [] then (if t.closed then Eof else Blocks) else Data(t.buf[..Min(size, |t.buf|)])
  }

  /** The built-in copy: as many bytes as fit. */
  method Copy(p: array<byte>, src: seq<byte>) returns (n: nat)
    modifies p
    ensures n == Min(p.Length, |src|)
    ensures p[..] == src[..n] + old(p[..])[n..]
  {
    n := Min(p.Length, |src|);
    for i := 0 to n
      invariant p[..] == src[..i] + old(p[..])[i..]
    {
      p[i] := src[i];
    }
  }

  class ChannelReadCloser {
    var ch: seq<seq<byte>>
    const chCloses: bool
    var buf: seq<byte>
    var closed: bool

    constructor (ch: seq<seq<byte>>, chCloses: bool)
      ensures State() == Stream(ch, chCloses, [], false)
    {
      this.ch, this.chCloses, buf, closed := ch, chCloses, [], false;
    }

    function State(): Stream
      reads this
    {
      Stream(ch, chCloses, buf, closed)
    }

    /** The receive loop. It ends because each turn takes a message; it is left early when the channel
        stays open with nothing to receive. */
    method Fill() returns (blocked: bool)
      requires !closed
      modifies this
      ensures State() == Refill(old(State()))
      ensures blocked <==> buf == [] && !closed
    {
      while |buf| == 0
        invariant !closed
        invariant buf == [] ==> old(State()).buf == [] && Receive(State()) == Receive(old(State()))
        invariant buf != [] ==> State() == Refill(old(State()))
        decreases |ch|, |buf| == 0
      {
        if |ch| == 0 {
          if !chCloses {
            return true;
          }
          closed := true;
          return false;
        }
        buf, ch := ch[0], ch[1..];
      }
      return false;
    }

    /** Fills the front of `p` with the bytes of the outcome and leaves the rest of it alone. */
    method Read(p: array<byte>) returns (r: Outcome)
      modifies this, p
      ensures State() == AfterRead(old(State()), p.Length)
      ensures r == ReadOutcome(old(State()), p.Length)
      ensures r.Data? ==> |r.bytes| <= p.Length && p[..] == r.bytes + old(p[..])[|r.bytes|..]
      ensures !r.Data? ==> p[..] == old(p[..])
    {
      if closed && |buf| == 0 {
        return Eof;
      }
      if !closed {
        var blocked := Fill();
        if blocked {
          return Blocks;
        }
      }
      if |buf| == 0 {
        return Eof;
      }
      var n := Copy(p, buf);
      r := Data(buf[..n]);
      buf := buf[n..];
    }

    /** Closing twice is an error, and so is closing after the channel ended. */
    method Close() returns (ok: bool)
      modifies this
      ensures ok == !old(closed)
      ensures State() == old(State()).(closed := true)
    {
      if closed {
        return false;
      }
      closed := true;
      return true;
    }
  }

  // ---------- the stream ----------

  /** The bytes still to be delivered. */
  function Rest(s: Stream): seq<byte> {
    s.buf + Flatten(s.ch)
  }

  /** Nobody but the channel's end has closed the reader. */
  predicate NotClosedByCaller(s: Stream) {
    s.closed ==> s.ch == [] && s.chCloses
  }

  lemma {:induction false} ReceiveKeepsRest(s: Stream)
    requires s.buf == []
    ensures Rest(Receive(s)) == Rest(s)
    ensures Receive(s).buf == [] ==> Receive(s).ch == [] && Receive(s).closed == (s.closed || s.chCloses)
    ensures Receive(s).buf != [] ==> Receive(s).closed == s.closed
    ensures Receive(s).chCloses == s.chCloses
    decreases |s.ch|
  {
    if s.ch != [] {
      FlattenHead(s.ch);
      if s.ch[0] == [] {
        ReceiveKeepsRest(s.(ch := s.ch[1..]));
      }
    }
  }

  lemma RefillKeepsRest(s: Stream)
    ensures Rest(Refill(s)) == Rest(s)
    ensures Refill(s).buf == [] && !s.closed ==> Rest(s) == [] && Refill(s).closed == s.chCloses
    ensures NotClosedByCaller(s) ==> NotClosedByCaller(Refill(s))
    ensures Refill(s).chCloses == s.chCloses
  {
    if s.buf == [] && !s.closed {
      ReceiveKeepsRest(s);
    }
  }

  function BytesOf(o: Outcome): seq<byte> {
    if o.Data? then o.bytes else []
  }

  /** One read moves bytes from the rest to the caller, in order. */
  lemma ReadConserves(s: Stream, size: nat)
    ensures BytesOf(ReadOutcome(s, size)) + Rest(AfterRead(s, size)) == Rest(s)
  {
    RefillKeepsRest(s);
    var t := Refill(s);
    var n := Min(size, |t.buf|);
    assert t.buf == t.buf[..n] + t.buf[n..];
    Assoc(t.buf[..n], t.buf[n..], Flatten(t.ch));
    if t.buf == [] {
      assert [] + Rest(t) == Rest(t);
    }
  }

  /** How much one read delivers: no more than the slice holds, and all of what it had at hand if that is
      less; what is at hand is the buffer, or the next message with bytes if there is none. */
  lemma ReadFills(s: Stream, size: nat)
    ensures var given, t := BytesOf(ReadOutcome(s, size)), AfterRead(s, size);
            && |given| <= size && (|given| < size ==> t.buf == [])
            && (s.buf != [] ==> t.ch == s.ch && given + t.buf == s.buf)
            && (s.buf == [] && given != [] ==>
                  exists i :: 0 <= i < |s.ch| && given + t.buf == s.ch[i] && t.ch == s.ch[i + 1..] &&
                    forall k :: 0 <= k < i ==> s.ch[k] == [])
  {
    if s.buf == [] && !s.closed {
      ReceivesNext(s);
    }
    var u := Refill(s);
    assert u.buf == u.buf[..Min(size, |u.buf|)] + u.buf[Min(size, |u.buf|)..];
  }

  lemma {:induction false} ReceivesNext(s: Stream)
    requires s.buf == []
    ensures var t := Receive(s);
            t.buf != [] ==> exists i :: 0 <= i < |s.ch| && t.buf == s.ch[i] && t.ch == s.ch[i + 1..] &&
                              forall k :: 0 <= k < i ==> s.ch[k] == []
    decreases |s.ch|
  {
    if s.ch != [] && s.ch[0] == [] {
      var rest := s.(ch := s.ch[1..]);
      ReceivesNext(rest);
      if Receive(rest).buf != [] {
        var i :| 0 <= i < |rest.ch| && Receive(rest).buf == rest.ch[i] && Receive(rest).ch == rest.ch[i + 1..] &&
                 forall k :: 0 <= k < i ==> rest.ch[k] == [];
        assert s.ch[i + 1] == rest.ch[i] && s.ch[i + 2..] == rest.ch[i + 1..];
        assert forall k :: 0 < k < i + 1 ==> s.ch[k] == rest.ch[k - 1];
      }
    }
  }

  /** Before an explicit close: end of file comes exactly when everything is delivered and the channel
      is closed, a read blocks exactly when everything is delivered and it is not, and any other read
      into a non-empty slice delivers something. */
  lemma OutcomesExactly(s: Stream, size: nat)
    requires NotClosedByCaller(s)
    ensures ReadOutcome(s, size) == Eof <==> Rest(s) == [] && s.chCloses
    ensures ReadOutcome(s, size) == Blocks <==> Rest(s) == [] && !s.chCloses
    ensures size > 0 && Rest(s) != [] ==> BytesOf(ReadOutcome(s, size)) != []
    ensures NotClosedByCaller(AfterRead(s, size)) && AfterRead(s, size).chCloses == s.chCloses
  {
    RefillKeepsRest(s);
    assert Refill(s).buf == [] && s.closed ==> Rest(s) == [];
    assert Refill(s).buf != [] ==> Rest(s) != [];
  }

  // ---------- whole runs ----------

  datatype Action = Read(size: nat) | Close

  function Next(s: Stream, a: Action): Stream {
    match a case Read(size) => AfterRead(s, size) case Close => s.(closed := true)
  }

  function Gives(s: Stream, a: Action): seq<byte> {
    match a case Read(size) => BytesOf(ReadOutcome(s, size)) case Close => []
  }

  function Run(s: Stream, actions: seq<Action>): Stream {
    if actions == [] then s else Next(Run(s, actions[..|actions| - 1]), actions[|actions| - 1])
  }

  function Delivered(s: Stream, actions: seq<Action>): seq<byte> {
    if actions == [] then [] else
      Delivered(s, actions[..|actions| - 1]) + Gives(Run(s, actions[..|actions| - 1]), actions[|actions| - 1])
  }

  /** Over any run of reads and closes, what was delivered followed by what is left is the stream. */
  lemma {:induction false} RunsConserve(s: Stream, actions: seq<Action>)
    ensures Delivered(s, actions) + Rest(Run(s, actions)) == Rest(s)
  {
    if actions != [] {
      var before := actions[..|actions| - 1];
      var t, a := Run(s, before), actions[|actions| - 1];
      RunsConserve(s, before);
      match a {
        case Read(size) => ReadConserves(t, size);
        case Close => assert [] + Rest(t) == Rest(t);
      }
      Assoc(Delivered(s, before), Gives(t, a), Rest(Next(t, a)));
    }
  }

  predicate AllReads(actions: seq<Action>) {
    forall i :: 0 <= i < |actions| ==> actions[i].Read? && actions[i].size > 0
  }

  lemma {:induction false} ReadsMakeProgress(s: Stream, actions: seq<Action>)
    requires NotClosedByCaller(s) && AllReads(actions)
    ensures NotClosedByCaller(Run(s, actions)) && Run(s, actions).chCloses == s.chCloses
    ensures Rest(Run(s, actions)) != [] ==> |Delivered(s, actions)| >= |actions|
  {
    if actions != [] {
      var before := actions[..|actions| - 1];
      var t, size := Run(s, before), actions[|actions| - 1].size;
      ReadsMakeProgress(s, before);
      OutcomesExactly(t, size);
      ReadConserves(t, size);
    }
  }

  /** Enough reads into non-empty slices, of any sizes, deliver the concatenation of all messages, and
      the next read then reports the end of the file exactly when the channel is closed. */
  lemma EnoughReadsDeliverEverything(s: Stream, actions: seq<Action>, size: nat)
    requires NotClosedByCaller(s) && AllReads(actions) && |actions| > |Rest(s)|
    ensures Delivered(s, actions) == Rest(s)
    ensures ReadOutcome(Run(s, actions), size) == if s.chCloses then Eof else Blocks
  {
    RunsConserve(s, actions);
    ReadsMakeProgress(s, actions);
    NilRight(Delivered(s, actions));
    OutcomesExactly(Run(s, actions), size);
  }

  /** After an explicit close only the buffer is still delivered; the channel is left alone. */
  lemma AfterCloseOnlyTheBuffer(s: Stream, size: nat)
    requires s.closed
    ensures ReadOutcome(s, size) == Eof <==> s.buf == []
    ensures BytesOf(ReadOutcome(s, size)) + AfterRead(s, size).buf == s.buf
    ensures AfterRead(s, size).ch == s.ch && AfterRead(s, size).closed
  {
    var n := Min(size, |s.buf|);
    assert s.buf == s.buf[..n] + s.buf[n..];
  }

  /** So after a close, whatever is called, what is delivered and the rest of the buffer are the buffer at
      the close. */
  lemma {:induction false} AfterCloseRun(s: Stream, actions: seq<Action>)
    ensures var t := Run(Next(s, Close), actions);
            && Delivered(Next(s, Close), actions) + t.buf == s.buf
            && t.ch == s.ch && t.closed
  {
    var start := Next(s, Close);
    if actions != [] {
      var before, a := actions[..|actions| - 1], actions[|actions| - 1];
      var t := Run(start, before);
      AfterCloseRun(s, before);
      match a {
        case Read(size) => AfterCloseOnlyTheBuffer(t, size);
        case Close => assert [] + t.buf == t.buf;
      }
      Assoc(Delivered(start, before), Gives(t, a), Next(t, a).buf);
    } else {
      assert [] + s.buf == s.buf;
    }
  }
}
