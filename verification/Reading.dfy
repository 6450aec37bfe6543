/** The state of a StreamReader as a value, one Read as a function of it, and what any run of Reads
    delivers (stream.go, StreamReader). */
module Reading {
  import opened Bytes
  import opened Nonce
  import opened Aead
  import opened Wire

  /** `key` is None until the salt has been read; `ctr` counts successful opens. */
  datatype View = View(key: Option<bytes>, ctr: nat, leftover: bytes, unread: bytes)

  datatype ReadOut = ReadOut(view: View, data: bytes, err: Option<IoError>)

  function ClientView(unread: bytes): View {
    View(None, 0, [], unread)
  }

  predicate Sane(v: View) {
    v.key.None? ==> v.leftover == [] && v.ctr == 0
  }

  /** initFn: read the salt and derive the session key, once. */
  function Init(s: Suite, masterKey: bytes, final: IoError, v: View): ReadOut {
    if v.key.Some? then ReadOut(v, [], None) else
    var (salt, rest) := ReadFull(v.unread, s.SaltSize(), final);
    if salt.Err? then ReadOut(v.(unread := rest), [], Some(salt.error)) else
    var key := s.SessionKey(masterKey, salt.value);
    if key.None? then ReadOut(v.(unread := rest), [], Some(BadMasterKey)) else
    ReadOut(View(key, 0, v.leftover, rest), [], None)
  }

  /** Read into a buffer of n bytes. */
  function ReadOnce(s: Suite, masterKey: bytes, final: IoError, v: View, n: nat): ReadOut {
    if v.leftover != [] then
      var k := Min(n, |v.leftover|);
      ReadOut(v.(leftover := v.leftover[k..]), v.leftover[..k], None)
    else
      var ini := Init(s, masterKey, final, v);
      if ini.err.Some? || ini.view.key.None? then ini else
      var st := DecodeChunk(s, ini.view.key.value, ini.view.ctr, ini.view.unread, final);
      var w := ini.view.(ctr := st.ctr, unread := st.rest);
      if st.result.Err? then ReadOut(w, [], Some(st.result.error)) else
      var k := Min(n, |st.result.value|);
      ReadOut(w.(leftover := st.result.value[k..]), st.result.value[..k], None)
  }

  /** Everything the reader will still deliver, and the error it will then report. */
  datatype Rest = Rest(plain: bytes, err: IoError)

  function Remaining(s: Suite, masterKey: bytes, final: IoError, v: View): Rest {
    var ini := Init(s, masterKey, final, v);
    if ini.view.key.None? || ini.err.Some? then Rest(v.leftover, ini.err.value)
    else
      var d := DecodeAll(s, ini.view.key.value, ini.view.ctr, ini.view.unread, final);
      Rest(v.leftover + Flatten(d.chunks), d.err)
  }

  /** The bytes the reader holds, in clear or not: what every non-empty Read uses up. */
  function Weight(v: View): nat {
    |v.leftover| + |v.unread|
  }

  lemma Carried(c: bytes, k: nat, more: bytes)
    requires k <= |c|
    ensures c[..k] + (c[k..] + more) == c + more
  {
  }

  /** A Read moves bytes from what remains to the caller and loses none, whatever the buffer size;
      it fails only when nothing remains, with the error that ends the stream. */
  lemma ReadKeeps(s: Suite, masterKey: bytes, final: IoError, v: View, n: nat)
    requires Sane(v)
    ensures var o := ReadOnce(s, masterKey, final, v, n);
            && |o.data| <= n
            && Sane(o.view)
            && var before, after := Remaining(s, masterKey, final, v), Remaining(s, masterKey, final, o.view);
               if o.err.None?
               then o.view.key.Some? && o.data + after.plain == before.plain && after.err == before.err
               else o.data == [] && before == Rest([], o.err.value)
  {
    hide DecodeAll, DecodeChunk;
    var ini := Init(s, masterKey, final, v);
    if v.leftover != [] {
      var d := DecodeAll(s, ini.view.key.value, ini.view.ctr, ini.view.unread, final);
      Carried(v.leftover, Min(n, |v.leftover|), Flatten(d.chunks));
    } else if ini.view.key.Some? {
      var st := DecodeChunk(s, ini.view.key.value, ini.view.ctr, ini.view.unread, final);
      DecodeAllUnfold(s, ini.view.key.value, ini.view.ctr, ini.view.unread, final);
      if st.result.Ok? {
        var d := DecodeAll(s, ini.view.key.value, st.ctr, st.rest, final);
        Carried(st.result.value, Min(n, |st.result.value|), Flatten(d.chunks));
        assert [] + (st.result.value + Flatten(d.chunks)) == st.result.value + Flatten(d.chunks);
      }
    }
  }

  lemma DecodeAllUnfold(s: Suite, key: bytes, i: nat, unread: bytes, final: IoError)
    ensures var st := DecodeChunk(s, key, i, unread, final);
            var d := DecodeAll(s, key, i, unread, final);
            if st.result.Err? then d == Decoded([], st.result.error)
            else var d' := DecodeAll(s, key, st.ctr, st.rest, final);
                 d.err == d'.err && Flatten(d.chunks) == st.result.value + Flatten(d'.chunks)
  {
    var st := DecodeChunk(s, key, i, unread, final);
    hide DecodeChunk;
    if st.result.Ok? {
      FlattenCons(st.result.value, DecodeAll(s, key, st.ctr, st.rest, final).chunks);
    }
  }

  /** A successful Read into a non-empty buffer makes progress. */
  lemma ReadProgress(s: Suite, masterKey: bytes, final: IoError, v: View, n: nat)
    requires s.Lawful() && n > 0
    ensures var o := ReadOnce(s, masterKey, final, v, n);
            o.err.None? ==> Weight(o.view) < Weight(v)
  {
    if v.leftover == [] {
      var ini := Init(s, masterKey, final, v);
      if ini.view.key.Some? {
        ChunkFits(s, ini.view.key.value, ini.view.ctr, ini.view.unread, final);
        hide DecodeChunk, Suite.Lawful;
      }
    }
  }

  /** What a Read that has to decode delivers is the beginning of a chunk whose two frames opened, under
      the next two nonces; when they are whole and one does not open, the Read fails, not with EOF, and
      delivers nothing. */
  lemma ReadIsAuthentic(s: Suite, masterKey: bytes, final: IoError, v: View, n: nat)
    requires v.leftover == [] && Init(s, masterKey, final, v).err.None?
    ensures var w, o, head := Init(s, masterKey, final, v).view, ReadOnce(s, masterKey, final, v, n), 2 + s.overhead;
            && w.key.Some?
            && (o.err.None? ==>
                  && SizeOpens(s, w.key.value, w.ctr, w.unread)
                  && var k := PayloadFrameLen(s, w.key.value, w.ctr, w.unread);
                     && |w.unread| >= head + k
                     && s.open(w.key.value, NonceAt(s.nonceSize, w.ctr + 1), w.unread[head..][..k]) == Some(o.data + o.view.leftover))
            && (Altered(s, w.key.value, w.ctr, w.unread) ==> o.err == Some(AuthFailed) && o.data == [])
  {
    var w := Init(s, masterKey, final, v).view;
    hide DecodeChunk, SizeOpens, PayloadFrameLen, Altered;
    var st := DecodeChunk(s, w.key.value, w.ctr, w.unread, final);
    if st.result.Ok? {
      var c, k := st.result.value, Min(n, |st.result.value|);
      assert c[..k] + c[k..] == c;
    }
    ChunkIsAuthentic(s, w.key.value, w.ctr, w.unread, final);
    if Altered(s, w.key.value, w.ctr, w.unread) {
      AlteredChunkFails(s, w.key.value, w.ctr, w.unread, final);
    }
  }

  /** A stream altered on the way delivers what was written before the altered frame, nothing of that frame
      or after it, and ends with an error that is not EOF. */
  lemma AlteredStream(s: Suite, masterKey: bytes, final: IoError, salt: bytes, chunks: seq<bytes>, tail: bytes)
    requires s.Lawful() && |masterKey| == s.keySize && |salt| == s.SaltSize() && Sized(chunks)
    requires Altered(s, s.subkey(masterKey, salt), 2 * |chunks|, tail)
    ensures Remaining(s, masterKey, final, ClientView(SaltedWire(s, masterKey, salt, chunks) + tail)) ==
            Rest(Flatten(chunks), AuthFailed)
  {
    hide DecodeAll, WireOf, Suite.Lawful, Altered, Remaining, Sized, NonceAt;
    var key := s.subkey(masterKey, salt);
    Assoc(salt, WireOf(s, key, 0, chunks), tail);
    ClientRemaining(s, masterKey, final, salt, WireOf(s, key, 0, chunks) + tail);
    DecodeAltered(s, key, chunks, tail, final);
  }

  lemma DecodeAltered(s: Suite, key: bytes, chunks: seq<bytes>, tail: bytes, final: IoError)
    requires s.Lawful() && Sized(chunks) && Altered(s, key, 2 * |chunks|, tail)
    ensures DecodeAll(s, key, 0, WireOf(s, key, 0, chunks) + tail, final) == Decoded(chunks, AuthFailed)
  {
    hide DecodeAll, WireOf, Suite.Lawful, Altered, Sized;
    AlteredEnds(s, key, 2 * |chunks|, tail, final);
    DecodeWire(s, key, 0, chunks, tail, final);
    assert chunks + [] == chunks;
  }

  lemma AlteredEnds(s: Suite, key: bytes, i: nat, tail: bytes, final: IoError)
    requires Altered(s, key, i, tail)
    ensures DecodeAll(s, key, i, tail, final) == Decoded([], AuthFailed)
  {
    AlteredChunkFails(s, key, i, tail, final);
    hide DecodeChunk, ReadUint16;
  }

  /** A key of the wrong size is an error once the salt is there, and a salt cut short is one before. */
  lemma InitFails(s: Suite, masterKey: bytes, final: IoError, unread: bytes, n: nat)
    ensures var o := ReadOnce(s, masterKey, final, ClientView(unread), n);
            && (|unread| >= s.SaltSize() && |masterKey| != s.keySize ==> o.err == Some(BadMasterKey) && o.data == [])
            && (|unread| < s.SaltSize() ==>
                  o.data == [] && o.err == Some(if unread != [] && final == EOF then UnexpectedEOF else final))
  {
    hide DecodeChunk;
  }

  /** Reads with the given buffer sizes, until they are done or one fails. */
  function ReadMany(s: Suite, masterKey: bytes, final: IoError, v: View, sizes: seq<nat>): ReadOut
    decreases |sizes|
  {
    if sizes == [] then ReadOut(v, [], None) else
    var o := ReadOnce(s, masterKey, final, v, sizes[0]);
    if o.err.Some? then o else
    var more := ReadMany(s, masterKey, final, o.view, sizes[1..]);
    ReadOut(more.view, o.data + more.data, more.err)
  }

  /** Any run of Reads delivers a prefix of what remained, the rest still remains, and a failed run has
      delivered all of it. */
  lemma {:induction false} ReadManyKeeps(s: Suite, masterKey: bytes, final: IoError, v: View, sizes: seq<nat>)
    requires Sane(v)
    ensures var o := ReadMany(s, masterKey, final, v, sizes);
            && Sane(o.view)
            && var before, after := Remaining(s, masterKey, final, v), Remaining(s, masterKey, final, o.view);
               if o.err.None?
               then o.data + after.plain == before.plain && after.err == before.err
               else before == Rest(o.data, o.err.value)
    decreases |sizes|
  {
    if sizes == [] {
      assert [] + Remaining(s, masterKey, final, v).plain == Remaining(s, masterKey, final, v).plain;
    } else {
      hide ReadOnce, Remaining;
      var o := ReadOnce(s, masterKey, final, v, sizes[0]);
      ReadKeeps(s, masterKey, final, v, sizes[0]);
      if o.err.None? {
        ReadManyKeeps(s, masterKey, final, o.view, sizes[1..]);
        var more := ReadMany(s, masterKey, final, o.view, sizes[1..]);
        Assoc(o.data, more.data, Remaining(s, masterKey, final, more.view).plain);
      }
    }
  }

  /** Reading on with non-empty buffers reaches the end of the stream. */
  lemma {:induction false} ReadManyFinishes(s: Suite, masterKey: bytes, final: IoError, v: View, sizes: seq<nat>)
    requires s.Lawful()
    requires (forall j :: 0 <= j < |sizes| ==> sizes[j] > 0) && |sizes| > Weight(v)
    ensures ReadMany(s, masterKey, final, v, sizes).err.Some?
    decreases |sizes|
  {
    hide ReadOnce, Suite.Lawful;
    ReadProgress(s, masterKey, final, v, sizes[0]);
    var o := ReadOnce(s, masterKey, final, v, sizes[0]);
    if o.err.None? {
      ReadManyFinishes(s, masterKey, final, o.view, sizes[1..]);
    }
  }

  // ---------- the wire of a writer, read back ----------

  /** What a writer with this salt puts on the wire for these chunks. */
  function SaltedWire(s: Suite, masterKey: bytes, salt: bytes, chunks: seq<bytes>): bytes {
    salt + WireOf(s, s.subkey(masterKey, salt), 0, chunks)
  }

  lemma ClientRemaining(s: Suite, masterKey: bytes, final: IoError, salt: bytes, tail: bytes)
    requires |masterKey| == s.keySize && |salt| == s.SaltSize()
    ensures Init(s, masterKey, final, ClientView(salt + tail)) ==
            ReadOut(View(Some(s.subkey(masterKey, salt)), 0, [], tail), [], None)
    ensures var d := DecodeAll(s, s.subkey(masterKey, salt), 0, tail, final);
            Remaining(s, masterKey, final, ClientView(salt + tail)) == Rest(Flatten(d.chunks), d.err)
  {
    SplitConcat(salt, tail);
    hide DecodeAll;
    var d := DecodeAll(s, s.subkey(masterKey, salt), 0, tail, final);
    assert [] + Flatten(d.chunks) == Flatten(d.chunks);
  }

  /** Round trip: for any writes and any buffer sizes a reader delivers a prefix of what was written;
      it delivers all of it by the time it reports an error, which is the plain EOF of the source; and
      with non-empty buffers it gets there. */
  lemma RoundTrip(s: Suite, masterKey: bytes, salt: bytes, writes: seq<bytes>, sizes: seq<nat>)
    requires s.Lawful() && |masterKey| == s.keySize && |salt| == s.SaltSize()
    ensures var wire := SaltedWire(s, masterKey, salt, AllChunks(writes));
            var o := ReadMany(s, masterKey, EOF, ClientView(wire), sizes);
            && Remaining(s, masterKey, EOF, ClientView(wire)) == Rest(Flatten(writes), EOF)
            && o.data <= Flatten(writes)
            && (o.err.Some? ==> o.data == Flatten(writes) && o.err.value == EOF)
            && ((forall j :: 0 <= j < |sizes| ==> sizes[j] > 0) && |sizes| > |wire| ==> o.err.Some?)
  {
    hide DecodeAll, DecodeChunk, WireOf, ReadMany;
    var chunks := AllChunks(writes);
    var key := s.subkey(masterKey, salt);
    WholeWire(s, key, 0, chunks);
    AllChunksFlatten(writes);
    ClientRemaining(s, masterKey, EOF, salt, WireOf(s, key, 0, chunks));
    var v := ClientView(SaltedWire(s, masterKey, salt, chunks));
    ReadManyKeeps(s, masterKey, EOF, v, sizes);
    if (forall j :: 0 <= j < |sizes| ==> sizes[j] > 0) && |sizes| > |v.unread| {
      ReadManyFinishes(s, masterKey, EOF, v, sizes);
    }
  }

  lemma WholeWire(s: Suite, key: bytes, i: nat, chunks: seq<bytes>)
    requires s.Lawful() && Sized(chunks)
    ensures DecodeAll(s, key, i, WireOf(s, key, i, chunks), EOF) == Decoded(chunks, EOF)
  {
    hide DecodeAll, DecodeChunk, WireOf, Suite.Lawful;
    ShortHead(s, key, i + 2 * |chunks|, []);
    DecodeWire(s, key, i, chunks, [], EOF);
    assert WireOf(s, key, i, chunks) + [] == WireOf(s, key, i, chunks);
    assert chunks + [] == chunks;
  }

  /** Truncation, seen by the caller: a cut stream delivers the plaintext of the complete chunks before
      the cut and no part of another, and ends with io.EOF exactly when the cut is at the stream start or
      just after the salt, a sealed size or a sealed payload. */
  lemma TruncatedStream(s: Suite, masterKey: bytes, salt: bytes, chunks: seq<bytes>, k: nat)
    requires s.Lawful() && |masterKey| == s.keySize && |salt| == s.SaltSize() && s.overhead > 0
    requires Sized(chunks) && k <= |SaltedWire(s, masterKey, salt, chunks)|
    ensures var r := Remaining(s, masterKey, EOF, ClientView(SaltedWire(s, masterKey, salt, chunks)[..k]));
            if k < |salt| then r == Rest([], if k == 0 then EOF else UnexpectedEOF)
            else && r.plain == Flatten(chunks[..Complete(s, chunks, k - |salt|, 0)])
                 && r.err == (if AtFrameEdge(s, chunks, k - |salt|) then EOF else UnexpectedEOF)
  {
    hide DecodeAll, DecodeChunk, WireOf, Suite.Lawful, AtFrameEdge;
    var tail := WireOf(s, s.subkey(masterKey, salt), 0, chunks);
    if k >= |salt| {
      CutConcat(salt, tail, k);
      ClientRemaining(s, masterKey, EOF, salt, tail[..k - |salt|]);
      TruncatedWire(s, s.subkey(masterKey, salt), 0, chunks, k - |salt|);
    }
  }
}
