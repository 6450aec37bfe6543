/** StreamWriter (stream.go): seals what it is given, frame by frame, after one salt. */
module StreamWriting {
  import opened Bytes
  import opened Nonce
  import opened Aead
  import opened Wire
  import opened Io
  import opened Reading

  class StreamWriter {
    const dst: ByteSink
    const suite: Suite
    const masterKey: bytes
    var aead: Option<bytes>      // the session key, once `ready`
    var nonce: array<byte>

    ghost var seals: seq<bytes>  // the nonce of every seal under this session key, in order
    ghost var plain: bytes       // the plaintext reported as written so far
    ghost var writes: seq<bytes> // ... by the calls that wrote it
    ghost var salt: bytes        // the salt the session key comes from
    ghost var base: bytes        // what the destination held before that salt
    ghost var next: bytes        // after a Write that failed, the first chunk it did not report

    ghost predicate Valid()
      reads this, dst, nonce
    {
      suite.Lawful() && Counted(suite, aead, nonce[..], seals)
    }

    /** Nothing has gone wrong so far: beyond `base` the destination holds the salt and the frames of all
        writes in order, nothing at all before the first write. */
    ghost predicate Intact()
      reads this, dst
    {
      OnWire(suite, masterKey, aead, |seals|, plain, writes, salt, base, dst.data)
    }

    /** One Write has failed, the last: the destination holds the salt and the frames of all that was
        reported written, and then part of one more frame, or all of it; or else part of the salt. */
    ghost predicate Torn()
      reads this, dst
    {
      TornWire(suite, masterKey, aead, plain, writes, salt, base, next, dst.data)
    }

    constructor (dst: ByteSink, suite: Suite, masterKey: bytes)
      requires suite.Lawful()
      ensures Valid() && fresh(nonce)
      ensures this.dst == dst && this.suite == suite && this.masterKey == masterKey
      ensures aead.None? && plain == [] && base == dst.data && Intact()
    {
      this.dst, this.suite, this.masterKey := dst, suite, masterKey;
      aead, seals, plain, writes, salt, base, next := None, [], [], [], [], dst.data, [];
      nonce := new byte[0];
    }

    /** No session key can be had: no salt, or a master key of the wrong size. */
    predicate NoKey(rand: Option<bytes>) {
      rand.None? || |masterKey| != suite.keySize
    }

    /** ensureReady: `rand` is the salt the random source yields, or None when it fails.  A salt that
        could not be written leaves the writer not ready, and the next Write tries again. */
    method EnsureReady(rand: Option<bytes>) returns (err: Option<IoError>)
      requires Valid() && (rand.Some? ==> |rand.value| == suite.SaltSize())
      modifies this`aead, this`nonce, dst
      ensures Valid() && (nonce == old(nonce) || fresh(nonce))
      ensures err.None? <==> aead.Some?
      ensures old(aead).Some? ==> aead == old(aead) && nonce == old(nonce) && dst.data == old(dst.data)
      ensures old(aead).None? && err.None? ==>
                && rand.Some? && aead == suite.SessionKey(masterKey, rand.value)
                && dst.data == old(dst.data) + rand.value
      ensures err.Some? ==> PartlyWritten(old(dst.data), if rand.Some? then rand.value else [], dst.data)
      ensures if err.None? then dst.failed == old(dst.failed) else dst.failed || NoKey(rand)
    {
      if aead.Some? {
        return None;
      }
      if rand.None? {
        return Some(RandFailed);
      }
      var key := suite.SessionKey(masterKey, rand.value);
      if key.None? {
        return Some(BadMasterKey);
      }
      var n;
      n, err := dst.Write(rand.value);
      assert dst.data[|old(dst.data)|..] == rand.value[..n];
      if err.Some? {
        return;
      }
      assert rand.value[..n] == rand.value;
      nonce := new byte[suite.nonceSize](_ => 0);
      ZeroNonce(suite.nonceSize, nonce[..]);
      aead := key;
    }

    /** Seal one message under the current nonce, and advance it. */
    method Seal(key: bytes, m: bytes) returns (c: bytes)
      requires Valid() && aead == Some(key)
      modifies this`seals, nonce
      ensures Valid()
      ensures c == suite.seal(key, NonceAt(suite.nonceSize, |old(seals)|), m)
      ensures seals == old(seals) + [NonceAt(suite.nonceSize, |old(seals)|)]
    {
      c := suite.seal(key, nonce[..], m);
      seals := seals + [nonce[..]];
      IncrementIsNext(suite.nonceSize, |old(seals)|);
      IncrementNonce(nonce);
    }

    /** Seal one frame and hand it to the destination in one piece. */
    method WriteFrame(key: bytes, chunk: bytes) returns (err: Option<IoError>)
      requires Valid() && aead == Some(key)
      modifies this`seals, nonce, dst
      ensures Valid() && old(seals) <= seals && |seals| == |old(seals)| + 2
      ensures var frame := Frame(suite, key, |old(seals)|, chunk);
              if err.None? then dst.data == old(dst.data) + frame else PartlyWritten(old(dst.data), frame, dst.data)
      ensures dst.failed == (old(dst.failed) || err.Some?)
    {
      var encSize := Seal(key, PutUint16(|chunk|));
      var encPayload := Seal(key, chunk);
      var frame := encSize + encPayload;
      var n;
      n, err := dst.Write(frame);
      assert err.None? ==> frame[..n] == frame;
      assert dst.data[|old(dst.data)|..] == frame[..n];
    }

    /** The loop of Write, once the writer is ready. */
    method WriteFrames(key: bytes, p: bytes) returns (written: nat, err: Option<IoError>, ghost frames: nat)
      requires Valid() && aead == Some(key)
      modifies this`seals, dst, nonce
      ensures Valid() && old(seals) <= seals
      ensures frames <= |Chunks(p)| && written <= |p| && p[..written] == Flatten(Chunks(p)[..frames])
      ensures if err.None? then frames == |Chunks(p)| && written == |p| else written < |p|
      ensures |seals| == |old(seals)| + 2 * frames + (if err.None? then 0 else 2)
      ensures Sent(suite, key, |old(seals)|, Chunks(p), frames, err.None?, old(dst.data), dst.data)
      ensures dst.failed == (old(dst.failed) || err.Some?)
    {
      hide Counted, Chunks, WireOf, Flatten, Frame, NonceAt, Suite.Lawful, Writing, PartlyWritten;
      written, frames, err := 0, 0, None;
      ghost var start, i := dst.data, |seals|;
      StartWriting(suite, key, i, p, start);
      var rest := p;
      while rest != []
        invariant Valid() && err.None?
        invariant written <= |p| && rest == p[written..]
        invariant Writing(suite, key, i, p, written, frames, start, dst.data)
        invariant |seals| == i + 2 * frames && old(seals) <= seals && dst.failed == old(dst.failed)
        decreases |rest|
      {
        var size := Min(|rest|, MAX_PAYLOAD);
        NextFrame(suite, key, i, p, written, frames, start, dst.data);
        assert rest[..size] == Untaken(p, written);
        err := WriteFrame(key, rest[..size]);
        if err.Some? {
          return;
        }
        written := written + size;
        rest := rest[size..];
        frames := frames + 1;
      }
      AllWritten(suite, key, i, p, frames, start, dst.data);
    }

    /** Both steps of Write. */
    method Send(p: bytes, rand: Option<bytes>) returns (written: nat, err: Option<IoError>, ghost frames: nat)
      requires Valid() && (rand.Some? ==> |rand.value| == suite.SaltSize())
      modifies this`aead, this`nonce, this`seals, dst, nonce
      ensures Valid() && (nonce == old(nonce) || fresh(nonce)) && old(seals) <= seals
      ensures frames <= |Chunks(p)| && written <= |p| && p[..written] == Flatten(Chunks(p)[..frames])
      ensures if err.None? then frames == |Chunks(p)| && written == |p| && aead.Some? else p != [] ==> written < |p|
      ensures aead.None? ==> err.Some? && written == 0 && old(aead).None?
                             && PartlyWritten(old(dst.data), if rand.Some? then rand.value else [], dst.data)
      ensures old(aead).Some? ==> aead == old(aead)
      ensures aead.Some? && old(aead).None? ==> rand.Some? && aead == suite.SessionKey(masterKey, rand.value) && old(seals) == []
      ensures aead.Some? ==> |seals| == |old(seals)| + 2 * frames + (if err.None? then 0 else 2)
      ensures aead.Some? ==>
                Sent(suite, aead.value, |old(seals)|, Chunks(p), frames, err.None?,
                     if old(aead).Some? then old(dst.data) else old(dst.data) + rand.value, dst.data)
      ensures if err.None? then dst.failed == old(dst.failed) else dst.failed || (aead.None? && NoKey(rand))
    {
      hide Chunks, WireOf, Flatten, Frame, NonceAt, Suite.Lawful, Sent;
      written, frames := 0, 0;
      err := EnsureReady(rand);
      if err.Some? {
        StartWriting(suite, [], 0, p, []);
      } else {
        written, err, frames := WriteFrames(aead.value, p);
      }
    }

    /** Write.  `frames` is the number of frames the destination took whole and without error: what is
        reported written is exactly their plaintext, and what follows them on the wire is part of one
        more frame at most.  It fails only if the destination does, or there is no key.  Seals go on counting when the destination fails. */
    method Write(p: bytes, rand: Option<bytes>) returns (written: nat, err: Option<IoError>, ghost frames: nat)
      requires Valid() && (rand.Some? ==> |rand.value| == suite.SaltSize())
      modifies this, dst, nonce
      ensures Valid() && (nonce == old(nonce) || fresh(nonce)) && old(seals) <= seals
      ensures frames <= |Chunks(p)| && written <= |p| && p[..written] == Flatten(Chunks(p)[..frames])
      ensures plain == old(plain) + p[..written] && base == old(base)
      ensures err.None? ==> frames == |Chunks(p)| && written == |p| && aead.Some? && writes == old(writes) + [p]
      ensures err.Some? ==> next <= p[written..] && (p != [] ==> next != [])
      ensures aead.None? ==> err.Some? && written == 0
                             && PartlyWritten(old(dst.data), if rand.Some? then rand.value else [], dst.data)
      ensures old(aead).Some? ==> aead == old(aead)
      ensures aead.Some? && old(aead).None? ==> rand.Some? && aead == suite.SessionKey(masterKey, rand.value)
      ensures aead.Some? ==> |seals| == |old(seals)| + 2 * frames + (if err.None? then 0 else 2)
      ensures aead.Some? ==>
                Sent(suite, aead.value, |old(seals)|, Chunks(p), frames, err.None?,
                     if old(aead).Some? then old(dst.data) else old(dst.data) + rand.value, dst.data)
      ensures if err.None? then dst.failed == old(dst.failed) else dst.failed || (aead.None? && NoKey(rand))
      ensures old(Intact()) ==> if err.None? then Intact() else Torn()
    {
      hide OnWire, TornWire, Counted, Chunks, WireOf, Flatten, NonceAt, Suite.Lawful, Sent, PartlyWritten, Suite.SessionKey;
      written, err, frames := Send(p, rand);
      if old(aead).None? {
        salt := if rand.Some? then rand.value else [];
      }
      if old(Intact()) {
        WireNext(suite, masterKey, old(aead), aead, |old(seals)|, plain, writes, salt, old(salt), base,
                 old(dst.data), dst.data, p, written, frames, err.None?);
      }
      if err.Some? {
        next := Untaken(p, written);
      }
      plain := plain + p[..written];
      writes := writes + [p[..written]];
      assert err.None? ==> p[..written] == p;
    }
  }

  /** The seals so far, and the nonce that follows them. */
  ghost predicate Counted(s: Suite, aead: Option<bytes>, nonce: bytes, seals: seq<bytes>) {
    && (aead.None? ==> seals == [])
    && (aead.Some? ==> nonce == NonceAt(s.nonceSize, |seals|))
    && (forall j :: 0 <= j < |seals| ==> seals[j] == NonceAt(s.nonceSize, j))
  }

  /** The chunk after those that have been written. */
  function Untaken(p: bytes, written: nat): (next: bytes)
    requires written <= |p|
    ensures next <= p[written..] && |next| <= MAX_PAYLOAD && (written < |p| ==> next != [])
  {
    p[written..][..Min(|p| - written, MAX_PAYLOAD)]
  }

  /** The wire after these writes, sealed under the key that the salt gives. */
  ghost predicate OnWire(s: Suite, masterKey: bytes, aead: Option<bytes>, seals: nat, plain: bytes, writes: seq<bytes>,
                         salt: bytes, base: bytes, data: bytes) {
    && Flatten(writes) == plain
    && (if aead.None? then writes == [] && data == base
        else && seals == 2 * |AllChunks(writes)| && |salt| == s.SaltSize() && aead == s.SessionKey(masterKey, salt)
             && data == base + SaltedWire(s, masterKey, salt, AllChunks(writes)))
  }

  lemma OnWireNext(s: Suite, masterKey: bytes, was: Option<bytes>, key: bytes, seals: nat, plain: bytes, writes: seq<bytes>,
                   salt: bytes, oldSalt: bytes, base: bytes, before: bytes, after: bytes, p: bytes, frames: nat)
    requires OnWire(s, masterKey, was, seals, plain, writes, oldSalt, base, before)
    requires if was.Some? then was == Some(key) && salt == oldSalt
             else |salt| == s.SaltSize() && Some(key) == s.SessionKey(masterKey, salt) && seals == 0
    requires frames == |Chunks(p)|
    requires Sent(s, key, seals, Chunks(p), frames, true, if was.Some? then before else before + salt, after)
    ensures OnWire(s, masterKey, Some(key), seals + 2 * frames, plain + p, writes + [p], salt, base, after)
  {
    hide Chunks, AllChunks, WireOf, Flatten, SaltedWire;
    var chunks := AllChunks(writes);
    var more := WireOf(s, key, 2 * |chunks|, Chunks(p));
    FlattenConcat(writes, [p]);
    JustOne(p);
    AllChunksSnoc(writes, p);
    SaltedConcat(s, masterKey, salt, chunks, Chunks(p));
    if was.Some? {
      Assoc(base, SaltedWire(s, masterKey, salt, chunks), more);
    } else {
      NothingWritten(s, key);
      JustSalt(s, masterKey, salt);
      Assoc(base, salt, more);
    }
  }

  /** The wire after these writes, the last of which failed. */
  ghost predicate TornWire(s: Suite, masterKey: bytes, aead: Option<bytes>, plain: bytes, writes: seq<bytes>,
                           salt: bytes, base: bytes, next: bytes, data: bytes) {
    && Flatten(writes) == plain && |next| <= MAX_PAYLOAD
    && (if aead.None? then plain == [] && |salt| <= s.SaltSize() && PartlyWritten(base, salt, data)
        else && |salt| == s.SaltSize() && aead == s.SessionKey(masterKey, salt) && next != []
             && var chunks := AllChunks(writes);
                PartlyWritten(base + SaltedWire(s, masterKey, salt, chunks), Frame(s, aead.value, 2 * |chunks|, next), data))
  }

  lemma TornNext(s: Suite, masterKey: bytes, was: Option<bytes>, aead: Option<bytes>, seals: nat, plain: bytes,
                 writes: seq<bytes>, salt: bytes, oldSalt: bytes, base: bytes, before: bytes, after: bytes, p: bytes,
                 written: nat, frames: nat)
    requires OnWire(s, masterKey, was, seals, plain, writes, oldSalt, base, before)
    requires frames <= |Chunks(p)| && written <= |p| && p[..written] == Flatten(Chunks(p)[..frames])
    requires if aead.None? then was.None? && written == 0 && |salt| <= s.SaltSize() && PartlyWritten(before, salt, after)
             else && (if was.Some? then was == aead && salt == oldSalt
                      else |salt| == s.SaltSize() && aead == s.SessionKey(masterKey, salt) && seals == 0)
                  && Sent(s, aead.value, seals, Chunks(p), frames, false, if was.Some? then before else before + salt, after)
    ensures TornWire(s, masterKey, aead, plain + p[..written], writes + [p[..written]], salt, base,
                     Untaken(p, written), after)
  {
    hide Chunks, AllChunks, WireOf, Flatten, SaltedWire, Frame;
    var q := p[..written];
    FlattenConcat(writes, [q]);
    JustOne(q);
    if aead.None? {
      assert plain + q == [] by {
        NothingFlat(plain);
      }
    } else {
      ChunksOfPart(p, written, frames);
      AllChunksSnoc(writes, q);
      SaltedConcat(s, masterKey, salt, AllChunks(writes), Chunks(q));
      hide PartlyWritten;
      if was.Some? {
        Assoc(base, SaltedWire(s, masterKey, salt, AllChunks(writes)), WireOf(s, aead.value, seals, Chunks(q)));
      } else {
        NothingWritten(s, aead.value);
        assert SaltedWire(s, masterKey, salt, []) == salt by {
          JustSalt(s, masterKey, salt);
        }
        Assoc(base, salt, WireOf(s, aead.value, 0, Chunks(q)));
      }
    }
  }

  lemma WireNext(s: Suite, masterKey: bytes, was: Option<bytes>, aead: Option<bytes>, seals: nat, plain: bytes,
                 writes: seq<bytes>, salt: bytes, oldSalt: bytes, base: bytes, before: bytes, after: bytes, p: bytes,
                 written: nat, frames: nat, ok: bool)
    requires OnWire(s, masterKey, was, seals, plain, writes, oldSalt, base, before)
    requires frames <= |Chunks(p)| && written <= |p| && p[..written] == Flatten(Chunks(p)[..frames])
    requires ok ==> frames == |Chunks(p)| && written == |p|
    requires if aead.None? then !ok && was.None? && written == 0 && |salt| <= s.SaltSize() && PartlyWritten(before, salt, after)
             else && (if was.Some? then was == aead && salt == oldSalt
                      else |salt| == s.SaltSize() && aead == s.SessionKey(masterKey, salt) && seals == 0)
                  && Sent(s, aead.value, seals, Chunks(p), frames, ok, if was.Some? then before else before + salt, after)
    ensures if ok then OnWire(s, masterKey, aead, seals + 2 * frames, plain + p[..written], writes + [p[..written]], salt, base, after)
            else TornWire(s, masterKey, aead, plain + p[..written], writes + [p[..written]], salt, base, Untaken(p, written), after)
  {
    hide OnWire, TornWire, Chunks, WireOf, Flatten, Sent, PartlyWritten, Suite.SessionKey;
    if ok {
      assert p[..written] == p;
      OnWireNext(s, masterKey, was, aead.value, seals, plain, writes, salt, oldSalt, base, before, after, p, frames);
    } else {
      TornNext(s, masterKey, was, aead, seals, plain, writes, salt, oldSalt, base, before, after, p, written, frames);
    }
  }

  lemma JustSalt(s: Suite, masterKey: bytes, salt: bytes)
    ensures SaltedWire(s, masterKey, salt, []) == salt
  {
  }

  lemma SaltedConcat(s: Suite, masterKey: bytes, salt: bytes, a: seq<bytes>, b: seq<bytes>)
    ensures SaltedWire(s, masterKey, salt, a + b) ==
            SaltedWire(s, masterKey, salt, a) + WireOf(s, s.subkey(masterKey, salt), 2 * |a|, b)
  {
    var key := s.subkey(masterKey, salt);
    WireConcat(s, key, 0, a, b);
    Assoc(salt, WireOf(s, key, 0, a), WireOf(s, key, 2 * |a|, b));
  }

  /** What a failed Write reports is whole chunks, all of them full: they are its chunks if it is written
      on its own. */
  lemma {:induction false} ChunksOfPart(p: bytes, written: nat, frames: nat)
    requires frames < |Chunks(p)| && written <= |p| && p[..written] == Flatten(Chunks(p)[..frames])
    ensures Chunks(p[..written]) == Chunks(p)[..frames]
    ensures Chunks(p)[frames] == Untaken(p, written)
    decreases frames
  {
    ChunksHead(p);
    hide Chunks, Flatten;
    if frames == 0 {
      NothingFlat(p);
      assert Chunks(p)[..0] == [] && p[..0] == [] && p[written..] == p;
    } else {
      var n := MAX_PAYLOAD;
      var head, rest := p[..n], Chunks(p[n..])[..frames - 1];
      assert Chunks(p)[..frames] == [head] + rest;
      FlattenCons(head, rest);
      SplitConcat(head, Flatten(rest));
      var q := p[..written];
      assert q[..n] == head && q[n..] == p[n..][..written - n] && p[n..][written - n..] == p[written..];
      ChunksOfPart(p[n..], written - n, frames - 1);
      ChunksUnfold(q);
      assert Chunks(q) == [head] + rest;
    }
  }

  lemma ChunksHead(p: bytes)
    requires Chunks(p) != []
    ensures p != [] && Chunks([]) == [] && (|Chunks(p)| > 1 ==> |p| > MAX_PAYLOAD)
    ensures Chunks(p)[0] == p[..Min(|p|, MAX_PAYLOAD)] && Chunks(p)[1..] == Chunks(p[Min(|p|, MAX_PAYLOAD)..])
  {
  }

  /** The wire ends within the frame of `next`, or with it; and read back by the client it is exactly the
      plaintext of the whole frames before, with `next` just when its frame is there whole as well. */
  ghost predicate EndsIn(s: Suite, masterKey: bytes, salt: bytes, chunks: seq<bytes>, next: bytes, wire: bytes) {
    var whole := SaltedWire(s, masterKey, salt, chunks + [next]);
    && wire <= whole && (wire <= salt || (|salt| == s.SaltSize() && SaltedWire(s, masterKey, salt, chunks) <= wire))
    && Remaining(s, masterKey, EOF, ClientView(wire)).plain == Flatten(chunks) + if wire == whole then next else []
  }

  /** Read back, the wire that a failed Write leaves is what was reported written, and possibly the next chunk. */
  lemma TornReads(w: StreamWriter) returns (chunks: seq<bytes>)
    requires w.Valid() && w.Torn() && |w.masterKey| == w.suite.keySize && w.next != []
    ensures w.base <= w.dst.data && Flatten(chunks) == w.plain
    ensures EndsIn(w.suite, w.masterKey, w.salt, chunks, w.next, w.dst.data[|w.base|..])
  {
    hide EndsIn, SaltedWire, AllChunks, Flatten, Frame, Suite.Lawful, NonceAt;
    var s, mk, salt := w.suite, w.masterKey, w.salt;
    if w.aead.None? {
      NothingFlat([]);
      chunks := [];
      SaltPartEnds(s, mk, salt, w.next, w.dst.data[|w.base|..]);
    } else {
      chunks := AllChunks(w.writes);
      var was := w.base + SaltedWire(s, mk, salt, chunks);
      var part := w.dst.data[|was|..];
      assert w.dst.data == was + part;
      Assoc(w.base, SaltedWire(s, mk, salt, chunks), part);
      SplitConcat(w.base, SaltedWire(s, mk, salt, chunks) + part);
      AllChunksFlatten(w.writes);
      FramePartEnds(s, mk, salt, chunks, w.next, part);
    }
  }

  lemma FramePartEnds(s: Suite, masterKey: bytes, salt: bytes, chunks: seq<bytes>, next: bytes, part: bytes)
    requires s.Lawful() && |masterKey| == s.keySize && |salt| == s.SaltSize()
    requires Sized(chunks) && 0 < |next| <= MAX_PAYLOAD
    requires part <= Frame(s, s.subkey(masterKey, salt), 2 * |chunks|, next)
    ensures EndsIn(s, masterKey, salt, chunks, next, SaltedWire(s, masterKey, salt, chunks) + part)
  {
    hide Remaining, Frame, SaltedWire, Suite.Lawful, NonceAt;
    var key := s.subkey(masterKey, salt);
    ReadTorn(s, masterKey, salt, chunks, next, part);
    SaltedConcat(s, masterKey, salt, chunks, [next]);
    OneWire(s, key, 2 * |chunks|, next);
    SealedFrame(s, key, 2 * |chunks|, next);
    assert |part| == FrameLen(s, next) ==> part == Frame(s, key, 2 * |chunks|, next);
  }

  lemma OneWire(s: Suite, key: bytes, i: nat, chunk: bytes)
    ensures WireOf(s, key, i, [chunk]) == Frame(s, key, i, chunk)
  {
    assert [chunk][1..] == [];
  }

  lemma ReadTorn(s: Suite, masterKey: bytes, salt: bytes, chunks: seq<bytes>, next: bytes, part: bytes)
    requires s.Lawful() && |masterKey| == s.keySize && |salt| == s.SaltSize()
    requires Sized(chunks) && |next| <= MAX_PAYLOAD
    requires part <= Frame(s, s.subkey(masterKey, salt), 2 * |chunks|, next)
    ensures Remaining(s, masterKey, EOF, ClientView(SaltedWire(s, masterKey, salt, chunks) + part)).plain ==
            Flatten(chunks) + if |part| == FrameLen(s, next) then next else []
  {
    hide DecodeAll, WireOf, Flatten, Frame, FrameLen, Sized, Suite.Lawful, Remaining, NonceAt;
    var key := s.subkey(masterKey, salt);
    Assoc(salt, WireOf(s, key, 0, chunks), part);
    ClientRemaining(s, masterKey, EOF, salt, WireOf(s, key, 0, chunks) + part);
    DecodeTorn(s, key, chunks, next, part);
  }

  lemma DecodeTorn(s: Suite, key: bytes, chunks: seq<bytes>, next: bytes, part: bytes)
    requires s.Lawful() && Sized(chunks) && |next| <= MAX_PAYLOAD && part <= Frame(s, key, 2 * |chunks|, next)
    ensures Flatten(DecodeAll(s, key, 0, WireOf(s, key, 0, chunks) + part, EOF).chunks) ==
            Flatten(chunks) + if |part| == FrameLen(s, next) then next else []
  {
    hide DecodeAll, WireOf, Flatten, Frame, Suite.Lawful, NonceAt;
    var i := 2 * |chunks|;
    SealedFrame(s, key, i, next);
    if |part| == FrameLen(s, next) {
      assert part == Frame(s, key, i, next);
      DecodeWire(s, key, 0, chunks, part, EOF);
      OneFrame(s, key, i, next);
      FlattenConcat(chunks, [next]);
      JustOne(next);
    } else {
      PartialFrame(s, key, i, next, part);
      DecodeThenEnd(s, key, 0, chunks, |chunks|, part);
      assert chunks[..|chunks|] == chunks;
      NothingFlat(Flatten(chunks));
    }
  }

  lemma JustOne(p: bytes)
    ensures Flatten([p]) == p
  {
    FlattenCons(p, []);
    NothingFlat(p);
    assert [p] + [] == [p];
  }

  lemma OneFrame(s: Suite, key: bytes, i: nat, chunk: bytes)
    requires s.Lawful() && |chunk| <= MAX_PAYLOAD
    ensures DecodeAll(s, key, i, Frame(s, key, i, chunk), EOF) == Decoded([chunk], EOF)
  {
    hide DecodeAll, Frame, Suite.Lawful;
    DecodeAllFrame(s, key, i, chunk, [], EOF);
    ShortHead(s, key, i + 2, []);
    assert Frame(s, key, i, chunk) + [] == Frame(s, key, i, chunk);
  }

  /** Less than a salt, or the salt and nothing else, reads back as nothing. */
  lemma SaltPartEnds(s: Suite, masterKey: bytes, salt: bytes, next: bytes, wire: bytes)
    requires s.Lawful() && |masterKey| == s.keySize && wire <= salt && |salt| <= s.SaltSize()
    ensures EndsIn(s, masterKey, salt, [], next, wire)
  {
    hide DecodeAll, Suite.Lawful, Frame, NonceAt;
    var key := s.subkey(masterKey, salt);
    SealedFrame(s, key, 0, next);
    OneWire(s, key, 0, next);
    assert [] + [next] == [next];
    if |wire| == s.SaltSize() {
      assert wire == salt && wire + [] == wire;
      ShortHead(s, key, 0, []);
      ClientRemaining(s, masterKey, EOF, wire, []);
    }
    assert Remaining(s, masterKey, EOF, ClientView(wire)).plain == [];
  }

  lemma NothingFlat(p: bytes)
    ensures Flatten([]) == [] && p + [] == p
  {
  }

  lemma NothingWritten(s: Suite, key: bytes)
    ensures AllChunks([]) == [] && WireOf(s, key, 0, []) == []
  {
  }

  lemma Regroup(base: bytes, salt: bytes, a: bytes, b: bytes)
    ensures (base + (salt + a)) + b == base + (salt + (a + b))
  {
  }

  /** The state of Write's loop: so many bytes and frames of p are at the destination. */
  ghost predicate Writing(s: Suite, key: bytes, i: nat, p: bytes, written: nat, frames: nat, start: bytes, data: bytes) {
    Progress(p, written, frames) && data == start + WireOf(s, key, i, Chunks(p)[..frames])
  }

  lemma StartWriting(s: Suite, key: bytes, i: nat, p: bytes, start: bytes)
    ensures Writing(s, key, i, p, 0, 0, start, start)
    ensures p[..0] == Flatten(Chunks(p)[..0]) == []
  {
    assert Chunks(p)[..0] == [] && p[..0] == [] && p[0..] == p && Chunks(p)[0..] == Chunks(p);
    assert start + [] == start;
  }

  lemma NextFrame(s: Suite, key: bytes, i: nat, p: bytes, written: nat, frames: nat, start: bytes, data: bytes)
    requires Writing(s, key, i, p, written, frames, start, data) && written < |p|
    ensures frames < |Chunks(p)| && Untaken(p, written) == Chunks(p)[frames]
    ensures p[..written] == Flatten(Chunks(p)[..frames]) && data == start + WireOf(s, key, i, Chunks(p)[..frames])
    ensures Writing(s, key, i, p, written + |Untaken(p, written)|, frames + 1, start,
                    data + Frame(s, key, i + 2 * frames, Chunks(p)[frames]))
  {
    hide WireOf, Chunks, Flatten, Frame;
    NextChunk(p, written, frames);
    OneMoreFrame(s, key, i, Chunks(p), frames);
    Assoc(start, WireOf(s, key, i, Chunks(p)[..frames]), Frame(s, key, i + 2 * frames, Chunks(p)[frames]));
  }

  lemma AllWritten(s: Suite, key: bytes, i: nat, p: bytes, frames: nat, start: bytes, data: bytes)
    requires Writing(s, key, i, p, |p|, frames, start, data)
    ensures frames == |Chunks(p)| && p[..|p|] == Flatten(Chunks(p)[..frames])
    ensures Sent(s, key, i, Chunks(p), frames, true, start, data)
  {
    assert p[|p|..] == [] && Chunks([]) == [];
    assert Chunks(p)[..|Chunks(p)|] == Chunks(p);
  }

  /** `after` is `before` with part of `frame` added. */
  ghost predicate PartlyWritten(before: bytes, frame: bytes, after: bytes) {
    before <= after && after[|before|..] <= frame
  }

  /** What a Write of these chunks, sealed from nonce i on, leaves at a destination that held `start`. */
  ghost predicate Sent(s: Suite, key: bytes, i: nat, chunks: seq<bytes>, frames: nat, ok: bool, start: bytes, data: bytes)
    requires frames <= |chunks|
  {
    if ok then data == start + WireOf(s, key, i, chunks)
    else frames < |chunks| && PartlyWritten(start + WireOf(s, key, i, chunks[..frames]),
                                            Frame(s, key, i + 2 * frames, chunks[frames]), data)
  }

  /** `frames` whole chunks of p make up its first `written` bytes. */
  ghost predicate Progress(p: bytes, written: nat, frames: nat) {
    && frames <= |Chunks(p)| && written <= |p|
    && p[..written] == Flatten(Chunks(p)[..frames])
    && Chunks(p[written..]) == Chunks(p)[frames..]
  }

  lemma NextChunk(p: bytes, written: nat, frames: nat)
    requires Progress(p, written, frames) && written < |p|
    ensures var size := Min(|p| - written, MAX_PAYLOAD);
            && frames < |Chunks(p)| && Chunks(p)[frames] == p[written..][..size]
            && Progress(p, written + size, frames + 1)
  {
    hide Chunks, Flatten;
    var size := Min(|p| - written, MAX_PAYLOAD);
    var cs := Chunks(p);
    ChunksUnfold(p[written..]);
    assert p[written..][size..] == p[written + size..];
    assert cs[frames..][0] == cs[frames] && cs[frames..][1..] == cs[frames + 1..];
    FlattenNext(cs, frames);
    assert p[..written + size] == p[..written] + p[written..][..size];
  }

  lemma ChunksUnfold(q: bytes)
    requires q != []
    ensures var size := Min(|q|, MAX_PAYLOAD);
            |Chunks(q)| > 0 && Chunks(q)[0] == q[..size] && Chunks(q)[1..] == Chunks(q[size..])
  {
  }

  lemma OneMoreFrame(s: Suite, key: bytes, i: nat, chunks: seq<bytes>, m: nat)
    requires m < |chunks|
    ensures WireOf(s, key, i, chunks[..m + 1]) == WireOf(s, key, i, chunks[..m]) + Frame(s, key, i + 2 * m, chunks[m])
  {
    assert chunks[..m + 1] == chunks[..m] + [chunks[m]];
    WireConcat(s, key, i, chunks[..m], [chunks[m]]);
    var last := [chunks[m]];
    assert last[1..] == [] && Frame(s, key, i + 2 * m, chunks[m]) + [] == Frame(s, key, i + 2 * m, chunks[m]);
    assert WireOf(s, key, i + 2 * m, last) == Frame(s, key, i + 2 * m, chunks[m]);
  }

  /** No two seals of a session share a nonce, failures of the destination included, as long as there
      are at most 256^size of them (2^96 with the 12-byte nonces of every supported cipher). */
  lemma SealsDistinct(w: StreamWriter, j: nat, k: nat)
    requires w.Valid() && j < k < |w.seals| <= Pow256(w.suite.nonceSize)
    ensures w.seals[j] != w.seals[k]
  {
    NoncesDistinct(w.suite.nonceSize, j, k);
  }

  /** One more write adds its own chunks after those of the writes before it. */
  lemma {:induction false} AllChunksSnoc(writes: seq<bytes>, p: bytes)
    ensures AllChunks(writes + [p]) == AllChunks(writes) + Chunks(p)
  {
    hide Chunks;
    if writes == [] {
      AllChunksCons(p, []);
      assert writes + [p] == [p] + [];
      assert Chunks(p) + [] == Chunks(p) && [] + Chunks(p) == Chunks(p);
    } else {
      AllChunksSnoc(writes[1..], p);
      AllChunksCons(writes[0], writes[1..] + [p]);
      assert writes + [p] == [writes[0]] + (writes[1..] + [p]);
      Assoc(Chunks(writes[0]), AllChunks(writes[1..]), Chunks(p));
    }
  }

  lemma AllChunksCons(p: bytes, writes: seq<bytes>)
    ensures AllChunks([p] + writes) == Chunks(p) + AllChunks(writes)
  {
    assert ([p] + writes)[1..] == writes;
  }
}
