/** The relay loop of `handleConnection` (the `for { select { ... } }` after a
    session is established), as a sequential processor of the events the
    `select` picks, one at a time, in the order it picks them.

    Session messages: a DATA message is written to the local socket, and a
    failed write calls `FinishRead` and ends the loop; a STATE message carrying
    the stop signal ends the loop; any other message is ignored. Local reads:
    a chunk is passed to `Send`; the reader's error marker calls `FinishSend`
    and the loop goes on. */
module Relay {
  import opened Wire
  import opened Transport

  /** Size of the reader goroutine's buffer: no chunk is longer. */
  const READ_BUFFER_SIZE: nat := 4096

  datatype Event =
    | SessionData(data: seq<byte>, writeFails: bool)   // DATA message; whether writing it fails
    | SessionStop                                      // STATE message with the stop signal
    | SessionOther                                     // any other session message
    | LocalChunk(chunk: seq<byte>)                     // the reader's `buf[:n]`
    | LocalReadError                                   // the reader's nil after a read error

  /** The events on which the loop returns. */
  predicate Ends(e: Event) {
    e.SessionStop? || (e.SessionData? && e.writeFails)
  }

  predicate Continues(events: seq<Event>) {
    forall i :: 0 <= i < |events| ==> !Ends(events[i])
  }

  /** How the loop stands after the events: returned on a stop signal, returned
      after a failed write, or still waiting for the next event. */
  datatype RelayExit = Stopped | WriteFailed | Running

  /** What the loop did: bytes written to the socket, payloads passed to Send,
      FinishSend and FinishRead calls, and how it stands. */
  datatype Effects = Effects(written: seq<byte>, sent: seq<seq<byte>>,
                             finishSends: nat, finishReads: nat, exit: RelayExit)

  const NoEffects := Effects([], [], 0, 0, Running)

  /** The effects of handling `e` and then, unless `e` ends the loop, the
      effects `rest` of the events after it. */
  function EventEffects(e: Event, rest: Effects): (r: Effects)
    ensures Ends(e) ==> r.exit != Running && r.written == [] && r.sent == [] && r.finishSends == 0
    ensures !Ends(e) ==> r.exit == rest.exit && r.finishReads == rest.finishReads
  {
    match e
    case SessionData(data, fails) =>
      if fails then Effects([], [], 0, 1, WriteFailed) else rest.(written := data + rest.written)
    case SessionStop => Effects([], [], 0, 0, Stopped)
    case SessionOther => rest
    case LocalChunk(chunk) => rest.(sent := [chunk] + rest.sent)
    case LocalReadError => rest.(finishSends := rest.finishSends + 1)
  }

  /** What the loop does on a sequence of events, handled from the first on. */
  function RelayEffects(events: seq<Event>): (r: Effects)
    ensures r.exit == Running <==> Continues(events)
    ensures r.finishReads == if r.exit == WriteFailed then 1 else 0
  {
    if events == [] then NoEffects
    else
      assert Continues(events) <==> !Ends(events[0]) && Continues(events[1..]) by {
        if !Ends(events[0]) && Continues(events[1..]) {
          forall i | 0 < i < |events| ensures !Ends(events[i]) {
            assert events[i] == events[1..][i - 1];
          }
        }
      }
      EventEffects(events[0], RelayEffects(events[1..]))
  }

  /** The relay loop: the `select` picks the events one at a time. */
  method Relay(conn: Conn, session: Session, events: seq<Event>) returns (exit: RelayExit)
    modifies conn, session
    ensures var fx := RelayEffects(events);
      conn.written == old(conn.written) + fx.written &&
      session.sent == old(session.sent) + fx.sent &&
      session.finishSends == old(session.finishSends) + fx.finishSends &&
      session.finishReads == old(session.finishReads) + fx.finishReads &&
      exit == fx.exit
    ensures conn.closed == old(conn.closed)
  {
    var i := 0;
    while i < |events|
      invariant i <= |events|
      invariant var fx, rest := RelayEffects(events), RelayEffects(events[i..]);
        old(conn.written) + fx.written == conn.written + rest.written &&
        old(session.sent) + fx.sent == session.sent + rest.sent &&
        old(session.finishSends) + fx.finishSends == session.finishSends + rest.finishSends &&
        fx.finishReads == rest.finishReads && fx.exit == rest.exit
      invariant session.finishReads == old(session.finishReads)
      invariant conn.closed == old(conn.closed)
    {
      RelayEffectsFrom(events, i);
      var rest := RelayEffects(events[i + 1..]);
      EventEffectsCases(events[i], rest);
      ghost var written, sent := conn.written, session.sent;
      var ends, last := HandleEvent(conn, session, events[i]);
      if ends {
        return last;
      }
      AppendAssoc(written, Payload(events[i]), rest.written);
      AppendAssoc(sent, Chunk(events[i]), rest.sent);
      i := i + 1;
    }
    assert events[i..] == [];
    return Running;
  }

  /** One case of the `select`: a DATA message is written to the socket and a
      failed write calls FinishRead; a stop signal ends the loop; a chunk is
      sent into the session; the read-error marker calls FinishSend. */
  method HandleEvent(conn: Conn, session: Session, e: Event) returns (ends: bool, exit: RelayExit)
    modifies conn, session
    ensures ends == Ends(e)
    ensures ends ==> exit == if e.SessionStop? then Stopped else WriteFailed
    ensures conn.written == old(conn.written) + Payload(e)
    ensures session.sent == old(session.sent) + Chunk(e)
    ensures session.finishSends == old(session.finishSends) + (if e.LocalReadError? then 1 else 0)
    ensures session.finishReads == old(session.finishReads) + (if Ends(e) && e.SessionData? then 1 else 0)
    ensures conn.closed == old(conn.closed)
  {
    ends, exit := false, Running;
    match e {
      case SessionData(data, fails) =>
        var ok := conn.Write(data, fails);
        if !ok {
          session.FinishRead();
          ends, exit := true, WriteFailed;
        }
      case SessionStop =>
        ends, exit := true, Stopped;
      case SessionOther =>
      case LocalChunk(chunk) =>
        session.Send(chunk);
      case LocalReadError =>
        session.FinishSend();
    }
  }

  /** EventEffects without its case split: an ending event has no effect but
      its own, any other adds its effect in front of the rest. */
  lemma EventEffectsCases(e: Event, rest: Effects)
    ensures Ends(e) ==>
      EventEffects(e, rest)
      == Effects([], [], 0, if e.SessionData? then 1 else 0, if e.SessionStop? then Stopped else WriteFailed)
    ensures !Ends(e) ==>
      EventEffects(e, rest)
      == Effects(Payload(e) + rest.written, Chunk(e) + rest.sent,
                 (if e.LocalReadError? then 1 else 0) + rest.finishSends, rest.finishReads, rest.exit)
  {
  }

  lemma RelayEffectsFrom(events: seq<Event>, i: nat)
    requires i < |events|
    ensures RelayEffects(events[i..]) == EventEffects(events[i], RelayEffects(events[i + 1..]))
  {
    assert events[i..][1..] == events[i + 1..];
  }

  // ---------------------------------------------------------------------------
  // A reference definition: each observable effect as a filter over the events
  // before the first one that ends the loop.

  /** The position of the first event that ends the loop, or |events| when none does. */
  function EndIndex(events: seq<Event>): (k: nat)
    ensures k <= |events|
    ensures forall i :: 0 <= i < k ==> !Ends(events[i])
    ensures k < |events| ==> Ends(events[k])
  {
    if events == [] || Ends(events[0]) then 0 else 1 + EndIndex(events[1..])
  }

  /** The bytes a DATA message puts on the socket when its write succeeds. */
  function Payload(e: Event): seq<byte> {
    if e.SessionData? && !e.writeFails then e.data else []
  }

  /** DATA payloads concatenated in arrival order. */
  function Delivered(events: seq<Event>): seq<byte> {
    if events == [] then [] else Payload(events[0]) + Delivered(events[1..])
  }

  function Chunk(e: Event): seq<seq<byte>> {
    if e.LocalChunk? then [e.chunk] else []
  }

  /** Local chunks in the order they were read. */
  function Forwarded(events: seq<Event>): seq<seq<byte>> {
    if events == [] then [] else Chunk(events[0]) + Forwarded(events[1..])
  }

  /** Number of read-error markers. */
  function ReadErrors(events: seq<Event>): nat {
    if events == [] then 0 else (if events[0].LocalReadError? then 1 else 0) + ReadErrors(events[1..])
  }

  function Flatten(chunks: seq<seq<byte>>): seq<byte> {
    if chunks == [] then [] else chunks[0] + Flatten(chunks[1..])
  }

  /** The loop's effects are the filters of the events before the first one that
      ends it; that event decides FinishRead and the exit. */
  lemma {:induction false} RelayEffectsIsFiltered(events: seq<Event>)
    ensures var k := EndIndex(events); var run := events[..k];
      RelayEffects(events)
      == Effects(Delivered(run), Forwarded(run), ReadErrors(run),
                 if k < |events| && events[k].SessionData? then 1 else 0,
                 if k == |events| then Running else if events[k].SessionStop? then Stopped else WriteFailed)
    decreases |events|
  {
    if events != [] && !Ends(events[0]) {
      var k, tail := EndIndex(events), events[1..];
      RelayEffectsIsFiltered(tail);
      EventEffectsCases(events[0], RelayEffects(tail));
      var run := events[..k];
      assert run[0] == events[0] && run[1..] == tail[..k - 1];
      assert k < |events| ==> events[k] == tail[k - 1];
    } else if events != [] {
      assert events[..0] == [];
    }
  }

  // ---------------------------------------------------------------------------
  // Properties of the loop.

  lemma {:induction false} FiltersAppend(a: seq<Event>, b: seq<Event>)
    ensures Delivered(a + b) == Delivered(a) + Delivered(b)
    ensures Forwarded(a + b) == Forwarded(a) + Forwarded(b)
    ensures ReadErrors(a + b) == ReadErrors(a) + ReadErrors(b)
    decreases |a|
  {
    if a == [] {
      assert a + b == b;
    } else {
      var tail := a[1..];
      assert (a + b)[0] == a[0] && (a + b)[1..] == tail + b;
      FiltersAppend(tail, b);
      AppendAssoc(Payload(a[0]), Delivered(tail), Delivered(b));
      AppendAssoc(Chunk(a[0]), Forwarded(tail), Forwarded(b));
    }
  }

  lemma {:induction false} FlattenAppend(x: seq<seq<byte>>, y: seq<seq<byte>>)
    ensures Flatten(x + y) == Flatten(x) + Flatten(y)
    decreases |x|
  {
    if x == [] {
      assert x + y == y;
    } else {
      assert (x + y)[0] == x[0] && (x + y)[1..] == x[1..] + y;
      FlattenAppend(x[1..], y);
    }
  }

  /** As long as nothing ends the loop, DATA payloads are written unchanged and in
      order, local chunks are passed to Send unchanged and in order, and every
      read-error marker calls FinishSend. */
  lemma {:induction false} RelayPassesThrough(events: seq<Event>)
    requires Continues(events)
    ensures RelayEffects(events)
         == Effects(Delivered(events), Forwarded(events), ReadErrors(events), 0, Running)
    decreases |events|
  {
    if events != [] {
      assert Continues(events[1..]) by {
        forall i | 0 <= i < |events[1..]| ensures !Ends(events[1..][i]) {
          assert events[1..][i] == events[i + 1];
        }
      }
      RelayPassesThrough(events[1..]);
      assert !Ends(events[0]);
    }
  }

  /** The loop's effects compose: events that do not end it contribute their
      effects, in arrival order, ahead of the effects of whatever follows. */
  lemma {:induction false} RelayEffectsAppend(a: seq<Event>, b: seq<Event>)
    requires Continues(a)
    ensures var fa, fb := RelayEffects(a), RelayEffects(b);
      RelayEffects(a + b) == Effects(fa.written + fb.written, fa.sent + fb.sent,
                                     fa.finishSends + fb.finishSends, fb.finishReads, fb.exit)
    decreases |a|
  {
    if a == [] {
      assert a + b == b;
    } else {
      assert Continues(a[1..]) by {
        forall i | 0 <= i < |a[1..]| ensures !Ends(a[1..][i]) {
          assert a[1..][i] == a[i + 1];
        }
      }
      var tail := a[1..];
      RelayEffectsAppend(tail, b);
      assert (a + b)[0] == a[0] && (a + b)[1..] == tail + b;
      assert !Ends(a[0]);
      var ft, fb := RelayEffects(tail), RelayEffects(b);
      EventEffectsCases(a[0], ft);
      EventEffectsCases(a[0], RelayEffects(tail + b));
      AppendAssoc(Payload(a[0]), ft.written, fb.written);
      AppendAssoc(Chunk(a[0]), ft.sent, fb.sent);
    }
  }

  /** Once the stop signal arrives nothing more is written, sent or finished,
      even when DATA messages are queued behind it; everything before it has
      taken effect. */
  lemma StopIsFinal(pre: seq<Event>, tail: seq<Event>)
    requires Continues(pre)
    ensures RelayEffects(pre + [SessionStop] + tail) == RelayEffects(pre).(exit := Stopped)
  {
    var rest := [SessionStop] + tail;
    AppendAssoc(pre, [SessionStop], tail);
    assert rest[0] == SessionStop;
    RelayEffectsAppend(pre, rest);
    assert RelayEffects(pre).written + [] == RelayEffects(pre).written;
    assert RelayEffects(pre).sent + [] == RelayEffects(pre).sent;
  }

  /** A failed socket write calls FinishRead once and ends the loop; its payload
      is not counted as written. */
  lemma WriteFailureEndsRelay(pre: seq<Event>, data: seq<byte>, tail: seq<Event>)
    requires Continues(pre)
    ensures RelayEffects(pre + [SessionData(data, true)] + tail)
         == RelayEffects(pre).(finishReads := 1, exit := WriteFailed)
  {
    var rest := [SessionData(data, true)] + tail;
    AppendAssoc(pre, [SessionData(data, true)], tail);
    assert rest[0] == SessionData(data, true);
    RelayEffectsAppend(pre, rest);
    assert RelayEffects(pre).written + [] == RelayEffects(pre).written;
    assert RelayEffects(pre).sent + [] == RelayEffects(pre).sent;
  }

  /** A local read error calls FinishSend once and does not end the loop: the
      events after it are processed as if it had not been there. */
  lemma ReadErrorKeepsRelaying(pre: seq<Event>, tail: seq<Event>)
    requires Continues(pre)
    ensures var fx, fp, ft := RelayEffects(pre + [LocalReadError] + tail), RelayEffects(pre), RelayEffects(tail);
      fx.written == fp.written + ft.written && fx.sent == fp.sent + ft.sent &&
      fx.finishSends == fp.finishSends + 1 + ft.finishSends &&
      fx.finishReads == ft.finishReads && fx.exit == ft.exit
  {
    var rest := [LocalReadError] + tail;
    AppendAssoc(pre, [LocalReadError], tail);
    assert rest[0] == LocalReadError && rest[1..] == tail;
    RelayEffectsAppend(pre, rest);
  }

  predicate IsLocal(e: Event) {
    e.LocalChunk? || e.LocalReadError?
  }

  /** What the reader goroutine guarantees: every chunk fits its buffer, and
      after its one nil it sends nothing more. */
  predicate ReaderWellFormed(events: seq<Event>) {
    (forall i :: 0 <= i < |events| && events[i].LocalChunk? ==> |events[i].chunk| <= READ_BUFFER_SIZE) &&
    (forall i, j :: 0 <= i < j < |events| && events[i].LocalReadError? ==> !IsLocal(events[j]))
  }

  lemma {:induction false} NoReadErrors(s: seq<Event>)
    requires forall i :: 0 <= i < |s| ==> !s[i].LocalReadError?
    ensures ReadErrors(s) == 0
    decreases |s|
  {
    if s != [] {
      assert !s[0].LocalReadError?;
      NoReadErrors(s[1..]);
    }
  }

  lemma {:induction false} AtMostOneReadError(s: seq<Event>)
    requires ReaderWellFormed(s)
    ensures ReadErrors(s) <= 1
    decreases |s|
  {
    if s != [] {
      var tail := s[1..];
      if s[0].LocalReadError? {
        assert forall i :: 0 <= i < |tail| ==> !tail[i].LocalReadError? by {
          forall i | 0 <= i < |tail| ensures !tail[i].LocalReadError? {
            assert tail[i] == s[i + 1] && !IsLocal(s[i + 1]);
          }
        }
        NoReadErrors(tail);
      } else {
        assert ReaderWellFormed(tail) by {
          forall i, j | 0 <= i < j < |tail| && tail[i].LocalReadError? ensures !IsLocal(tail[j]) {
            assert tail[i] == s[i + 1] && tail[j] == s[j + 1];
          }
        }
        AtMostOneReadError(tail);
      }
    }
  }

  /** The reader emits at most one nil, so FinishSend is called at most once. */
  lemma FinishSendAtMostOnce(events: seq<Event>)
    requires ReaderWellFormed(events)
    ensures RelayEffects(events).finishSends <= 1
  {
    RelayEffectsIsFiltered(events);
    var k := EndIndex(events);
    assert ReaderWellFormed(events[..k]);
    AtMostOneReadError(events[..k]);
  }

  lemma {:induction false} ForwardedBounded(s: seq<Event>)
    requires forall i :: 0 <= i < |s| && s[i].LocalChunk? ==> |s[i].chunk| <= READ_BUFFER_SIZE
    ensures forall j :: 0 <= j < |Forwarded(s)| ==> |Forwarded(s)[j]| <= READ_BUFFER_SIZE
    decreases |s|
  {
    if s != [] {
      assert s[0].LocalChunk? ==> |s[0].chunk| <= READ_BUFFER_SIZE;
      var tail := s[1..];
      assert forall i :: 0 <= i < |tail| && tail[i].LocalChunk? ==> |tail[i].chunk| <= READ_BUFFER_SIZE by {
        forall i | 0 <= i < |tail| && tail[i].LocalChunk? ensures |tail[i].chunk| <= READ_BUFFER_SIZE {
          assert tail[i] == s[i + 1];
        }
      }
      ForwardedBounded(tail);
    }
  }

  /** Every payload passed to Send is one chunk of at most 4096 bytes. */
  lemma SentChunksBounded(events: seq<Event>)
    requires ReaderWellFormed(events)
    ensures var sent := RelayEffects(events).sent;
      forall j :: 0 <= j < |sent| ==> |sent[j]| <= READ_BUFFER_SIZE
  {
    RelayEffectsIsFiltered(events);
    var k := EndIndex(events);
    assert ReaderWellFormed(events[..k]);
    ForwardedBounded(events[..k]);
  }

  /** The bytes the local reader produced, in order, whether or not the loop got to them. */
  function LocalBytes(events: seq<Event>): seq<byte> {
    Flatten(Forwarded(events))
  }

  /** What the loop sends into the session is a prefix of what the reader read. */
  lemma SentIsPrefixOfLocalBytes(events: seq<Event>)
    ensures Flatten(RelayEffects(events).sent) <= LocalBytes(events)
  {
    RelayEffectsIsFiltered(events);
    var k := EndIndex(events);
    assert events == events[..k] + events[k..];
    FiltersAppend(events[..k], events[k..]);
    FlattenAppend(Forwarded(events[..k]), Forwarded(events[k..]));
  }
}
