/** StreamReader and identifyTCPUser (stream.go), in place over arrays as the source writes them.
    Each method is proved to do what its function in Reading or Handshake says. */
module StreamReading {
  import opened Bytes
  import opened Nonce
  import opened Aead
  import opened Wire
  import opened Io
  import opened Reading
  import opened Users
  import Handshake

  class StreamReader {
    const src: ByteSource
    const suite: Suite
    const masterKey: bytes
    var aead: Option<bytes>     // None while initFn is still initFromSalt
    var nonce: array<byte>
    var buf: array<byte>
    var store: array<byte>      // backs the slice `leftover`, which starts at `from` and has `len` bytes
    var from: nat
    var len: nat

    ghost var ctr: nat          // successful opens so far
    ghost var Repr: set<object>

    /** Note store != buf: what is carried over is never overwritten by the next chunk. */
    ghost predicate Valid()
      reads this, Repr
    {
      && {this, src, nonce, buf, store} <= Repr
      && nonce != buf && nonce != store && store != buf
      && suite.Lawful()
      && from + len <= store.Length
      && (aead.None? ==> ctr == 0 && len == 0)
      && (aead.Some? ==> nonce[..] == NonceAt(suite.nonceSize, ctr) && buf.Length == MAX_PAYLOAD + suite.overhead)
    }

    ghost function View(): (v: View)
      requires Valid()
      reads this, Repr
      ensures Sane(v)
    {
      Reading.View.View(aead, ctr, store[from..from + len], src.unread)
    }

    /** NewClientStreamReader */
    constructor Client(src: ByteSource, suite: Suite, masterKey: bytes)
      requires suite.Lawful()
      ensures Valid() && fresh(Repr - {src})
      ensures this.src == src && this.suite == suite && this.masterKey == masterKey
      ensures View() == ClientView(src.unread)
    {
      this.src, this.suite, this.masterKey := src, suite, masterKey;
      aead, ctr, from, len := None, 0, 0, 0;
      nonce, buf, store := new byte[0], new byte[0], new byte[0];
      new;
      Repr := {this, src, nonce, buf, store};
    }

    /** NewEstablishedStreamReader: carries on a session begun by someone else, after i opens. */
    constructor Established(src: ByteSource, suite: Suite, key: bytes, nonce: bytes, ghost i: nat)
      requires suite.Lawful() && nonce == NonceAt(suite.nonceSize, i)
      ensures Valid() && fresh(Repr - {src})
      ensures this.src == src && this.suite == suite && masterKey == []
      ensures View() == Reading.View.View(Some(key), i, [], src.unread)
    {
      this.src, this.suite, this.masterKey := src, suite, [];
      aead, ctr, from, len := Some(key), i, 0, 0;
      this.nonce := new byte[|nonce|](k requires 0 <= k < |nonce| => nonce[k]);
      buf := new byte[MAX_PAYLOAD + suite.overhead](_ => 0);
      store := new byte[0];
      new;
      assert this.nonce[..] == nonce;
      Repr := {this, src, this.nonce, buf, store};
    }

    method InitFromSalt() returns (err: Option<IoError>)
      requires Valid() && aead.None?
      modifies this, src
      ensures Valid() && fresh(Repr - old(Repr))
      ensures var o := Init(suite, masterKey, src.final, old(View()));
              View() == o.view && err == o.err
      ensures store == old(store) && from == old(from) && len == old(len)
    {
      var salt := src.ReadFull(suite.SaltSize());
      if salt.Err? {
        return Some(salt.error);
      }
      var key := suite.SessionKey(masterKey, salt.value);
      if key.None? {
        return Some(BadMasterKey);
      }
      nonce := new byte[suite.nonceSize](_ => 0);
      buf := new byte[MAX_PAYLOAD + suite.overhead](_ => 0);
      ZeroNonce(suite.nonceSize, nonce[..]);
      aead := key;
      Repr := Repr + {nonce, buf};
      err := None;
    }

    /** Read one sealed frame of n bytes and open it under the current nonce. */
    method OpenNext(n: nat) returns (r: Result<bytes, IoError>)
      requires Valid() && aead.Some?
      modifies this`ctr, src, nonce
      ensures Valid()
      ensures Step(r, ctr, src.unread) == Wire.OpenNext(suite, aead.value, old(ctr), old(src.unread), n, src.final)
    {
      hide Suite.Lawful;
      var frame := src.ReadFull(n);
      if frame.Err? {
        return Err(frame.error);
      }
      var m := suite.open(aead.value, nonce[..], frame.value);
      if m.None? {
        return Err(AuthFailed);
      }
      Advance();
      r := Ok(m.value);
    }

    /** readChunk: on success the chunk is the first n bytes of buf. */
    method ReadChunk() returns (n: nat, err: Option<IoError>)
      requires Valid() && aead.Some?
      modifies this`ctr, src, nonce, buf
      ensures Valid()
      ensures var st := DecodeChunk(suite, aead.value, old(ctr), old(src.unread), src.final);
              && src.unread == st.rest && ctr == st.ctr
              && (if st.result.Ok? then err.None? && n == |st.result.value| <= buf.Length && buf[..n] == st.result.value
                  else err == Some(st.result.error))
    {
      hide Suite.Lawful, NonceAt, Wire.OpenNext;
      n := 0;
      ChunkFits(suite, aead.value, ctr, src.unread, src.final);
      var sizeRaw := OpenNext(2 + suite.overhead);
      if sizeRaw.Err? {
        return 0, Some(sizeRaw.error);
      }
      if |sizeRaw.value| != 2 {
        err := Some(BadSizeFrame);
        return;
      }
      var payload := OpenNext(ReadUint16(sizeRaw.value) % 0x4000 + suite.overhead);
      if payload.Err? {
        return 0, Some(payload.error);
      }
      FillBuf(payload.value);
      n, err := |payload.value|, None;
    }

    method FillBuf(data: bytes)
      requires Valid() && |data| <= buf.Length
      modifies buf
      ensures Valid() && buf[..|data|] == data
    {
      forall k | 0 <= k < |data| {
        buf[k] := data[k];
      }
    }

    method Advance()
      requires Valid() && aead.Some?
      modifies this`ctr, nonce
      ensures Valid() && ctr == old(ctr) + 1
    {
      IncrementNonce(nonce);
      IncrementIsNext(suite.nonceSize, ctr);
      ctr := ctr + 1;
    }

    /** leftover = append(leftover[:0], data...): in place when the backing array has room from where the
        slice starts, in a new array otherwise. */
    method KeepLeftover(data: bytes)
      requires Valid() && aead.Some?
      modifies this`store, this`from, this`len, this`Repr, store
      ensures Valid() && fresh(Repr - old(Repr))
      ensures store[from..from + len] == data
    {
      if store.Length - from < |data| {
        var room: nat :| room >= |data|;
        store := new byte[room](_ => 0);
        from := 0;
        Repr := Repr + {store};
      }
      forall k | 0 <= k < |data| {
        store[from + k] := data[k];
      }
      len := |data|;
    }

    /** copy(p, leftover), and what stays. */
    method TakeLeftover(p: array<byte>) returns (n: nat)
      requires Valid() && p !in Repr
      modifies this`from, this`len, p
      ensures Valid() && n == Min(p.Length, old(len)) && p[n..] == old(p[n..])
      ensures p[..n] == old(View().leftover[..n])
      ensures View() == old(View()).(leftover := old(View().leftover)[n..])
    {
      n := Min(p.Length, len);
      forall k | 0 <= k < n {
        p[k] := store[from + k];
      }
      from, len := from + n, len - n;
    }

    /** copy(p, buf[:m]), and what is carried over. */
    method TakeChunk(p: array<byte>, m: nat) returns (n: nat)
      requires Valid() && p !in Repr && aead.Some? && len == 0 && m <= buf.Length
      modifies this`store, this`from, this`len, this`Repr, store, p
      ensures Valid() && fresh(Repr - old(Repr)) && n == Min(p.Length, m) && p[n..] == old(p[n..])
      ensures p[..n] == old(buf[..m])[..n]
      ensures View() == old(View()).(leftover := old(buf[..m])[n..])
    {
      n := Min(p.Length, m);
      forall k | 0 <= k < n {
        p[k] := buf[k];
      }
      if n < m {
        KeepLeftover(buf[n..m]);
      }
    }

    method Read(p: array<byte>) returns (n: nat, err: Option<IoError>)
      requires Valid() && p !in Repr
      modifies Repr, p
      ensures Valid() && fresh(Repr - old(Repr))
      ensures n <= p.Length && p[n..] == old(p[n..])
      ensures ReadOut(View(), p[..n], err) == ReadOnce(suite, masterKey, src.final, old(View()), p.Length)
    {
      hide DecodeChunk, NonceAt, Suite.Lawful;
      n, err := 0, None;
      if len > 0 {
        n := TakeLeftover(p);
        return;
      }
      if aead.None? {
        err := InitFromSalt();
        if err.Some? {
          return;
        }
      }
      assert Init(suite, masterKey, src.final, old(View())) == ReadOut(View(), [], None);
      n, err := ReadChunk();
      if err.Some? {
        n := 0;
        return;
      }
      n := TakeChunk(p, n);
    }
  }

  /** identifyTCPUser: read the salt and the first size frame, then try the users in order. */
  method IdentifyTCPUser(src: ByteSource, suite: Suite, users: seq<UserEntry>)
    returns (r: Result<Handshake.Identified, IoError>, nonce: bytes)
    modifies src
    ensures (r, src.unread) == Handshake.Identify(suite, users, old(src.unread), src.final)
    ensures r.Ok? ==> nonce == NonceAt(suite.nonceSize, r.value.ctr)
  {
    nonce := [];
    var salt := src.ReadFull(suite.SaltSize());
    if salt.Err? {
      return Err(salt.error), nonce;
    }
    var sizeFrame := src.ReadFull(2 + suite.overhead);
    if sizeFrame.Err? {
      return Err(sizeFrame.error), nonce;
    }
    var i := 0;
    while i < |users|
      invariant i <= |users| && src.unread == old(src.unread)[suite.SaltSize()..][2 + suite.overhead..]
      invariant Handshake.FirstOpener(suite, users, 0, salt.value, sizeFrame.value) ==
                Handshake.FirstOpener(suite, users, i, salt.value, sizeFrame.value)
    {
      var key := suite.SessionKey(users[i].masterKey, salt.value);
      if key.Some? {
        var counter := new byte[suite.nonceSize](_ => 0);
        ZeroNonce(suite.nonceSize, counter[..]);
        var sizeRaw := suite.open(key.value, counter[..], sizeFrame.value);
        if sizeRaw.Some? && |sizeRaw.value| == 2 {
          var size := ReadUint16(sizeRaw.value) % 0x4000;
          var payloadFrame := src.ReadFull(size + suite.overhead);
          if payloadFrame.Err? {
            return Err(payloadFrame.error), nonce;
          }
          IncrementIsNext(suite.nonceSize, 0);
          IncrementNonce(counter);
          var payload := suite.open(key.value, counter[..], payloadFrame.value);
          if payload.None? {
            return Err(BadFirstPayload), nonce;
          }
          IncrementIsNext(suite.nonceSize, 1);
          IncrementNonce(counter);
          nonce := counter[..];
          return Ok(Handshake.Identified(users[i], key.value, 2, payload.value)), nonce;
        }
      }
      i := i + 1;
    }
    r := Err(UnknownUser);
  }
}
