/** A writer and a reader joined by a connection that delivers bytes in any portions: every
    interleaving of Write, delivery and Read (stream.go, both halves). */
module Pipe {
  import opened Bytes
  import opened Nonce
  import opened Aead
  import opened Wire
  import opened Reading

  /** `sent` counts the writer's seals; `inFlight` has left the writer and not reached the reader. */
  datatype Pipe = Pipe(started: bool, sent: nat, inFlight: bytes, view: View, failed: bool,
                       written: bytes, delivered: bytes)

  datatype Event = Write(p: bytes) | Arrive(n: nat) | Read(n: nat)

  const FRESH := Pipe(false, 0, [], ClientView([]), false, [], [])

  /** A Read that would run out of bytes blocks: it changes nothing and may be tried again later. */
  function Next(s: Suite, masterKey: bytes, salt: bytes, st: Pipe, e: Event): Pipe {
    match e
    case Write(p) =>
      var chunks := Chunks(p);
      var out := WireOf(s, s.subkey(masterKey, salt), st.sent, chunks);
      st.(started := true,
          sent := st.sent + 2 * |chunks|,
          inFlight := st.inFlight + ((if st.started then [] else salt) + out),
          written := st.written + p)
    case Arrive(n) =>
      var k := Min(n, |st.inFlight|);
      st.(view := st.view.(unread := st.view.unread + st.inFlight[..k]), inFlight := st.inFlight[k..])
    case Read(n) =>
      var o := ReadOnce(s, masterKey, EOF, st.view, n);
      if o.err == Some(EOF) || o.err == Some(UnexpectedEOF) then st
      else if o.err.Some? then st.(failed := true)
      else st.(view := o.view, delivered := st.delivered + o.data)
  }

  function Run(s: Suite, masterKey: bytes, salt: bytes, st: Pipe, events: seq<Event>): Pipe
    decreases |events|
  {
    if events == [] then st
    else Run(s, masterKey, salt, Next(s, masterKey, salt, st, events[0]), events[1..])
  }

  /** The bytes between the two ends are exactly the frames of `pending`, sealed from the reader's
      counter on (after the salt, while the reader has not taken it). */
  ghost predicate Between(s: Suite, masterKey: bytes, salt: bytes, st: Pipe, pending: seq<bytes>) {
    var key := s.subkey(masterKey, salt);
    var between := st.view.unread + st.inFlight;
    if st.view.key.Some? then
      st.started && st.view.key.value == key && between == WireOf(s, key, st.view.ctr, pending)
    else if st.started then between == salt + WireOf(s, key, 0, pending)
    else between == [] && pending == []
  }

  ghost predicate Accounted(st: Pipe, pending: seq<bytes>) {
    st.delivered + (st.view.leftover + Flatten(pending)) == st.written
  }

  /** The invariant: the two counters differ by exactly the pending frames. */
  ghost predicate Holds(s: Suite, masterKey: bytes, salt: bytes, st: Pipe, pending: seq<bytes>) {
    && Sane(st.view)
    && Sized(pending)
    && !st.failed
    && st.view.ctr + 2 * |pending| == st.sent
    && Between(s, masterKey, salt, st, pending)
    && Accounted(st, pending)
  }

  /** A reader holding part of the frames of `pending` decodes the first of them or runs out of bytes. */
  lemma DecodePending(s: Suite, key: bytes, i: nat, u: bytes, x: bytes, pending: seq<bytes>)
    requires s.Lawful() && Sized(pending) && u + x == WireOf(s, key, i, pending)
    ensures var st := DecodeChunk(s, key, i, u, EOF);
            if st.result.Ok?
            then && pending != [] && st.result.value == pending[0] && st.ctr == i + 2
                 && st.rest + x == WireOf(s, key, i + 2, pending[1..])
            else st.result.error == EOF || st.result.error == UnexpectedEOF
  {
    if pending == [] {
      assert u == [];
    } else {
      var frame, tail := Frame(s, key, i, pending[0]), WireOf(s, key, i + 2, pending[1..]);
      hide WireOf, Suite.Lawful;
      assert u + x == frame + tail;
      if |u| < |frame| {
        PrefixOf(u, x, frame, tail);
        PartialFrame(s, key, i, pending[0], u);
        hide DecodeChunk;
      } else {
        var rest := Suffix(u, x, frame, tail);
        DecodeFrame(s, key, i, pending[0], rest, EOF);
      }
    }
  }

  lemma PrefixOf(u: bytes, x: bytes, a: bytes, b: bytes)
    requires u + x == a + b && |u| < |a|
    ensures u < a
  {
    assert (u + x)[..|u|] == u && (a + b)[..|u|] == a[..|u|];
  }

  lemma Suffix(u: bytes, x: bytes, a: bytes, b: bytes) returns (rest: bytes)
    requires u + x == a + b && |u| >= |a|
    ensures u == a + rest && rest + x == b
  {
    rest := u[|a|..];
    assert (u + x)[..|a|] == u[..|a|] && (a + b)[..|a|] == a;
    assert (u + x)[|a|..] == rest + x && (a + b)[|a|..] == b;
  }

  lemma WriteStep(s: Suite, masterKey: bytes, salt: bytes, st: Pipe, p: bytes, pending: seq<bytes>)
    requires Holds(s, masterKey, salt, st, pending)
    ensures Holds(s, masterKey, salt, Next(s, masterKey, salt, st, Write(p)), pending + Chunks(p))
  {
    SizedMore(pending, p);
    WriteBetween(s, masterKey, salt, st, p, pending);
    WriteAccounted(s, masterKey, salt, st, p, pending);
    hide Between, Accounted, Sized, Chunks, WireOf;
  }

  lemma WriteBetween(s: Suite, masterKey: bytes, salt: bytes, st: Pipe, p: bytes, pending: seq<bytes>)
    requires Holds(s, masterKey, salt, st, pending)
    ensures Between(s, masterKey, salt, Next(s, masterKey, salt, st, Write(p)), pending + Chunks(p))
  {
    var key, c := s.subkey(masterKey, salt), Chunks(p);
    var out := WireOf(s, key, st.sent, c);
    WireConcat(s, key, st.view.ctr, pending, c);
    hide Accounted, Chunks, WireOf, Flatten, Sized;
    if !st.started {
      assert st.view.unread == [] && st.inFlight == [] && st.sent == 0 && pending + c == c;
      Appended([], [], salt, out);
    } else if st.view.key.Some? {
      Appended(st.view.unread, st.inFlight, [], out);
    } else {
      Appended(st.view.unread, st.inFlight, [], out);
      Assoc(salt, WireOf(s, key, 0, pending), out);
    }
  }

  lemma WriteAccounted(s: Suite, masterKey: bytes, salt: bytes, st: Pipe, p: bytes, pending: seq<bytes>)
    requires Accounted(st, pending)
    ensures Accounted(Next(s, masterKey, salt, st, Write(p)), pending + Chunks(p))
  {
    ChunksFlatten(p);
    FlattenConcat(pending, Chunks(p));
    hide Chunks, WireOf, Flatten;
    AppendPlain(st.delivered, st.view.leftover, Flatten(pending), p);
  }

  lemma Appended(u: bytes, x: bytes, head: bytes, out: bytes)
    ensures u + (x + (head + out)) == (u + x) + (head + out)
    ensures head == [] ==> u + (x + (head + out)) == (u + x) + out
    ensures u == [] && x == [] ==> u + (x + (head + out)) == head + out
  {
  }

  lemma AppendPlain(a: bytes, b: bytes, c: bytes, p: bytes)
    ensures a + (b + (c + p)) == (a + (b + c)) + p
  {
  }

  lemma ArriveStep(s: Suite, masterKey: bytes, salt: bytes, st: Pipe, n: nat, pending: seq<bytes>)
    requires Holds(s, masterKey, salt, st, pending)
    ensures Holds(s, masterKey, salt, Next(s, masterKey, salt, st, Arrive(n)), pending)
  {
    hide WireOf, Flatten;
    var k := Min(n, |st.inFlight|);
    assert (st.view.unread + st.inFlight[..k]) + st.inFlight[k..] == st.view.unread + st.inFlight;
  }

  /** A Read served from the carried-over bytes, and one that decodes the next frame. */
  lemma ReadLeftoverStep(s: Suite, masterKey: bytes, salt: bytes, st: Pipe, n: nat, pending: seq<bytes>)
    requires Holds(s, masterKey, salt, st, pending) && st.view.leftover != []
    ensures Holds(s, masterKey, salt, Next(s, masterKey, salt, st, Read(n)), pending)
  {
    hide WireOf, Flatten;
    var l, k := st.view.leftover, Min(n, |st.view.leftover|);
    Carried(l, k, Flatten(pending));
    Assoc(st.delivered, l[..k], l[k..] + Flatten(pending));
  }

  lemma ReadFrameStep(s: Suite, masterKey: bytes, salt: bytes, st: Pipe, n: nat, pending: seq<bytes>)
    returns (pending': seq<bytes>)
    requires s.Lawful() && |masterKey| == s.keySize && |salt| == s.SaltSize()
    requires Holds(s, masterKey, salt, st, pending) && st.view.leftover == []
    ensures Holds(s, masterKey, salt, Next(s, masterKey, salt, st, Read(n)), pending')
  {
    pending' := pending;
    var key := s.subkey(masterKey, salt);
    var v := st.view;
    hide DecodeChunk, WireOf, Suite.Lawful, Flatten;
    var ini := Init(s, masterKey, EOF, v);
    if v.key.None? && |v.unread| >= |salt| {
      var rest := Suffix(v.unread, st.inFlight, salt, WireOf(s, key, 0, pending));
      SplitConcat(salt, rest);
      assert ini == ReadOut(View(Some(key), 0, [], rest), [], None);
    }
    if ini.err.None? && ini.view.key.Some? {
      DecodePending(s, key, ini.view.ctr, ini.view.unread, st.inFlight, pending);
      var step := DecodeChunk(s, key, ini.view.ctr, ini.view.unread, EOF);
      if step.result.Ok? {
        pending' := pending[1..];
        var c, k := pending[0], Min(n, |pending[0]|);
        FlattenCons(c, pending');
        assert pending == [c] + pending';
        Carried(c, k, Flatten(pending'));
        Assoc(st.delivered, c[..k], c[k..] + Flatten(pending'));
        assert [] + (c + Flatten(pending')) == c + Flatten(pending');
      }
    }
  }

  /** In every interleaving the invariant holds: nothing fails, nothing is lost, repeated or reordered,
      and reader and writer counters stay in lockstep. */
  lemma {:induction false} RunHolds(s: Suite, masterKey: bytes, salt: bytes, st: Pipe, pending: seq<bytes>, events: seq<Event>)
    returns (pending': seq<bytes>)
    requires s.Lawful() && |masterKey| == s.keySize && |salt| == s.SaltSize()
    requires Holds(s, masterKey, salt, st, pending)
    ensures Holds(s, masterKey, salt, Run(s, masterKey, salt, st, events), pending')
    decreases |events|
  {
    pending' := pending;
    hide Holds, Suite.Lawful;
    if events != [] {
      var next := Next(s, masterKey, salt, st, events[0]);
      match events[0] {
        case Write(p) =>
          WriteStep(s, masterKey, salt, st, p, pending);
          pending' := pending + Chunks(p);
        case Arrive(n) =>
          ArriveStep(s, masterKey, salt, st, n, pending);
        case Read(n) =>
          if st.view.leftover != [] {
            ReadLeftoverStep(s, masterKey, salt, st, n, pending);
          } else {
            pending' := ReadFrameStep(s, masterKey, salt, st, n, pending);
          }
      }
      hide Next;
      pending' := RunHolds(s, masterKey, salt, next, pending', events[1..]);
    }
  }

  /** What a caller sees: at every moment the bytes delivered are a prefix of the bytes written, the
      reader has never failed, its counter is at most the writer's, and once nothing is on the way
      everything has been delivered. */
  lemma DeliveredIsPrefix(s: Suite, masterKey: bytes, salt: bytes, events: seq<Event>)
    requires s.Lawful() && |masterKey| == s.keySize && |salt| == s.SaltSize()
    ensures var st := Run(s, masterKey, salt, FRESH, events);
            && !st.failed
            && st.delivered <= st.written
            && st.view.ctr <= st.sent && (st.sent - st.view.ctr) % 2 == 0
            && (st.view.unread + st.inFlight == [] && st.view.leftover == [] ==> st.delivered == st.written)
  {
    assert Holds(s, masterKey, salt, FRESH, []);
    var pending := RunHolds(s, masterKey, salt, FRESH, [], events);
    hide Run, Holds;
    HoldsMeans(s, masterKey, salt, Run(s, masterKey, salt, FRESH, events), pending);
  }

  lemma HoldsMeans(s: Suite, masterKey: bytes, salt: bytes, st: Pipe, pending: seq<bytes>)
    requires s.Lawful() && Holds(s, masterKey, salt, st, pending) && |salt| == s.SaltSize()
    ensures !st.failed && st.delivered <= st.written
    ensures st.view.ctr <= st.sent && (st.sent - st.view.ctr) % 2 == 0
    ensures st.view.unread + st.inFlight == [] && st.view.leftover == [] ==> st.delivered == st.written
  {
    NothingBetween(s, masterKey, salt, st, pending);
    hide Between, Suite.Lawful, Flatten, Sized;
    PrefixOfWhole(st.delivered, st.view.leftover + Flatten(pending));
    if pending == [] && st.view.leftover == [] {
      NothingPending(st);
    }
  }

  lemma NothingPending(st: Pipe)
    requires Accounted(st, []) && st.view.leftover == []
    ensures st.delivered == st.written
  {
    assert st.delivered + ([] + []) == st.delivered;
  }

  lemma NothingBetween(s: Suite, masterKey: bytes, salt: bytes, st: Pipe, pending: seq<bytes>)
    requires s.Lawful() && Between(s, masterKey, salt, st, pending) && |salt| == s.SaltSize()
    ensures st.view.unread + st.inFlight == [] ==> pending == []
  {
    WireNonEmpty(s, s.subkey(masterKey, salt), if st.view.key.Some? then st.view.ctr else 0, pending);
    hide Suite.Lawful, WireOf;
  }

  lemma WireNonEmpty(s: Suite, key: bytes, i: nat, chunks: seq<bytes>)
    requires s.Lawful()
    ensures chunks != [] ==> |WireOf(s, key, i, chunks)| > 0
    ensures Flatten([]) == []
  {
    if chunks != [] {
      SealedFrame(s, key, i, chunks[0]);
    }
  }

  lemma PrefixOfWhole(a: bytes, b: bytes)
    ensures a <= a + b
    ensures b == [] ==> a + b == a
  {
  }

  // ---------- progress ----------

  function Reads(sizes: seq<nat>): seq<Event> {
    seq(|sizes|, j requires 0 <= j < |sizes| => Read(sizes[j]))
  }

  /** A run is its events one after the other. */
  lemma {:induction false} RunConcat(s: Suite, masterKey: bytes, salt: bytes, st: Pipe, a: seq<Event>, b: seq<Event>)
    ensures Run(s, masterKey, salt, st, a + b) == Run(s, masterKey, salt, Run(s, masterKey, salt, st, a), b)
    ensures Run(s, masterKey, salt, st, []) == st
    ensures b != [] ==> Run(s, masterKey, salt, st, b) == Run(s, masterKey, salt, Next(s, masterKey, salt, st, b[0]), b[1..])
    decreases |a|
  {
    hide Next;
    if a == [] {
      assert a + b == b;
    } else {
      RunConcat(s, masterKey, salt, Next(s, masterKey, salt, st, a[0]), a[1..], b);
      assert (a + b)[1..] == a[1..] + b;
    }
  }

  /** What `written` and `inFlight` stand for: a Write adds its argument to the one; its salt, if it is the
      first, and its frames to the other, from which a delivery takes as much as it is asked to. */
  lemma WhatMoves(s: Suite, masterKey: bytes, salt: bytes, st: Pipe, e: Event)
    ensures var st' := Next(s, masterKey, salt, st, e);
            && st'.written == (if e.Write? then st.written + e.p else st.written)
            && st.delivered <= st'.delivered
            && (e.Write? ==> st'.inFlight == st.inFlight + (if st.started then [] else salt)
                                             + WireOf(s, s.subkey(masterKey, salt), st.sent, Chunks(e.p)))
            && (e.Arrive? ==> st'.view.unread + st'.inFlight == st.view.unread + st.inFlight
                              && |st'.view.unread| == |st.view.unread| + Min(e.n, |st.inFlight|))
            && (e.Read? ==> st'.inFlight == st.inFlight)
  {
    hide WireOf, Chunks, ReadOnce;
    if e.Arrive? {
      ArriveMoves(st.view.unread, st.inFlight, Min(e.n, |st.inFlight|));
    }
  }

  lemma ArriveMoves(u: bytes, x: bytes, k: nat)
    requires k <= |x|
    ensures (u + x[..k]) + x[k..] == u + x
  {
  }

  /** With everything delivered to the reader, a Read into a non-empty buffer gets on, unless there is
      nothing more to read. */
  lemma ReadGetsOn(s: Suite, masterKey: bytes, salt: bytes, st: Pipe, n: nat, pending: seq<bytes>)
    requires s.Lawful() && |masterKey| == s.keySize && |salt| == s.SaltSize()
    requires Holds(s, masterKey, salt, st, pending) && st.inFlight == [] && st.delivered != st.written && n > 0
    ensures Weight(Next(s, masterKey, salt, st, Read(n)).view) < Weight(st.view)
  {
    ReadProgress(s, masterKey, EOF, st.view, n);
    var key, v := s.subkey(masterKey, salt), st.view;
    hide WireOf, Suite.Lawful, Flatten, DecodeChunk, Sized;
    assert v.unread + [] == v.unread;
    if v.leftover == [] {
      if pending == [] {
        assert false by {
          NothingPending(st);
        }
      } else {
        FirstPending(s, key, if v.key.Some? then v.ctr else 0, pending);
        if v.key.None? {
          var wire := WireOf(s, key, 0, pending);
          assert st.started;
          SplitConcat(salt, wire);
        }
      }
    }
  }

  lemma FirstPending(s: Suite, key: bytes, i: nat, pending: seq<bytes>)
    requires s.Lawful() && Sized(pending) && pending != []
    ensures DecodeChunk(s, key, i, WireOf(s, key, i, pending), EOF).result == Ok(pending[0])
  {
    hide DecodeChunk, Frame, Suite.Lawful;
    DecodeFrame(s, key, i, pending[0], WireOf(s, key, i + 2, pending[1..]), EOF);
  }

  lemma {:induction false} ReadsDrain(s: Suite, masterKey: bytes, salt: bytes, st: Pipe, pending: seq<bytes>, sizes: seq<nat>)
    requires s.Lawful() && |masterKey| == s.keySize && |salt| == s.SaltSize()
    requires Holds(s, masterKey, salt, st, pending) && st.inFlight == []
    requires |sizes| >= Weight(st.view) && forall j :: 0 <= j < |sizes| ==> sizes[j] > 0
    ensures var st' := Run(s, masterKey, salt, st, Reads(sizes));
            st'.delivered == st'.written == st.written
    decreases |sizes|
  {
    HoldsMeans(s, masterKey, salt, st, pending);
    RunConcat(s, masterKey, salt, st, [], Reads(sizes));
    hide Holds, Next, Run, Suite.Lawful, ReadOnce;
    if sizes == [] {
      assert Weight(st.view) == 0;
      assert st.view.unread + st.inFlight == [] && st.view.leftover == [];
    } else {
      var st' := Next(s, masterKey, salt, st, Read(sizes[0]));
      WhatMoves(s, masterKey, salt, st, Read(sizes[0]));
      assert Reads(sizes)[0] == Read(sizes[0]) && Reads(sizes)[1..] == Reads(sizes[1..]);
      if st.delivered == st.written {
        StaysDelivered(s, masterKey, salt, st, pending, Reads(sizes));
      } else {
        ReadGetsOn(s, masterKey, salt, st, sizes[0], pending);
        var pending' := OneRead(s, masterKey, salt, st, sizes[0], pending);
        ReadsDrain(s, masterKey, salt, st', pending', sizes[1..]);
      }
    }
  }

  lemma OneRead(s: Suite, masterKey: bytes, salt: bytes, st: Pipe, n: nat, pending: seq<bytes>) returns (pending': seq<bytes>)
    requires s.Lawful() && |masterKey| == s.keySize && |salt| == s.SaltSize()
    requires Holds(s, masterKey, salt, st, pending)
    ensures Holds(s, masterKey, salt, Next(s, masterKey, salt, st, Read(n)), pending')
  {
    hide Holds, Next, Suite.Lawful;
    pending' := RunHolds(s, masterKey, salt, st, pending, [Read(n)]);
    RunConcat(s, masterKey, salt, st, [], [Read(n)]);
    RunConcat(s, masterKey, salt, Next(s, masterKey, salt, st, Read(n)), [], []);
    assert [Read(n)][1..] == [];
  }

  lemma {:induction false} StaysDelivered(s: Suite, masterKey: bytes, salt: bytes, st: Pipe, pending: seq<bytes>, events: seq<Event>)
    requires s.Lawful() && |masterKey| == s.keySize && |salt| == s.SaltSize()
    requires Holds(s, masterKey, salt, st, pending) && st.delivered == st.written
    requires forall j :: 0 <= j < |events| ==> events[j].Read?
    ensures var st' := Run(s, masterKey, salt, st, events);
            st'.delivered == st'.written == st.written
    decreases |events|
  {
    hide Holds, Next, Suite.Lawful;
    if events != [] {
      var st' := Next(s, masterKey, salt, st, events[0]);
      WhatMoves(s, masterKey, salt, st, events[0]);
      var pending' := OneRead(s, masterKey, salt, st, events[0].n, pending);
      HoldsMeans(s, masterKey, salt, st', pending');
      StaysDelivered(s, masterKey, salt, st', pending', events[1..]);
    }
  }

  /** Nothing gets stuck: after any interleaving, once what is on the way has arrived, enough Reads into
      non-empty buffers deliver everything that was written. */
  lemma EverythingIsDelivered(s: Suite, masterKey: bytes, salt: bytes, events: seq<Event>, sizes: seq<nat>)
    requires s.Lawful() && |masterKey| == s.keySize && |salt| == s.SaltSize()
    requires var st := Run(s, masterKey, salt, FRESH, events);
             |sizes| >= Weight(st.view) + |st.inFlight| && forall j :: 0 <= j < |sizes| ==> sizes[j] > 0
    ensures var st := Run(s, masterKey, salt, FRESH, events);
            var end := Run(s, masterKey, salt, FRESH, events + ([Arrive(|st.inFlight|)] + Reads(sizes)));
            end.delivered == end.written == st.written
  {
    assert Holds(s, masterKey, salt, FRESH, []);
    var st := Run(s, masterKey, salt, FRESH, events);
    var pending := RunHolds(s, masterKey, salt, FRESH, [], events);
    var arrive := Arrive(|st.inFlight|);
    ArriveStep(s, masterKey, salt, st, |st.inFlight|, pending);
    WhatMoves(s, masterKey, salt, st, arrive);
    hide Holds, Run, Suite.Lawful;
    var st' := Next(s, masterKey, salt, st, arrive);
    assert st'.inFlight == [] && st'.view.leftover == st.view.leftover && |st'.view.unread| == |st.view.unread| + |st.inFlight|;
    ReadsDrain(s, masterKey, salt, st', pending, sizes);
    RunConcat(s, masterKey, salt, FRESH, events, [arrive] + Reads(sizes));
    RunConcat(s, masterKey, salt, st, [], [arrive] + Reads(sizes));
    assert ([arrive] + Reads(sizes))[1..] == Reads(sizes);
  }
}
