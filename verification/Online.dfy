/** onlineTracker (service.go): which addresses of a user were seen lately.  It forgets lazily; against a
    full log of every sighting it makes no difference. */
module Online {
  import opened Bytes
  import opened Addresses
  import opened Sessions

  /** model.AliveIP */
  datatype AliveIP = AliveIP(id: int, ips: seq<Ip>)

  type Items = map<Ip, int>

  /** The users a snapshot lists. */
  function Listed(out: seq<AliveIP>): set<int> {
    set e | e in out :: e.id
  }

  lemma NoneListed()
    ensures Listed([]) == {}
  {
  }

  lemma ListedNext(out: seq<AliveIP>, e: AliveIP)
    ensures Listed(out + [e]) == Listed(out) + {e.id}
    ensures forall d :: d in out ==> d.id in Listed(out)
  {
    assert e in out + [e];
    assert forall d :: d in out + [e] <==> d in out || d == e;
  }

  /** The last time the log has this user at this address. */
  function Latest(log: seq<Sighting>, user: int, ip: Ip): Option<int> {
    if log == [] then None
    else
      var s := log[|log| - 1];
      if s.user == user && s.ip == ip then Some(s.at) else Latest(log[..|log| - 1], user, ip)
  }

  lemma LatestNext(log: seq<Sighting>, s: Sighting, user: int, ip: Ip)
    ensures Latest(log + [s], user, ip) == if s.user == user && s.ip == ip then Some(s.at) else Latest(log, user, ip)
  {
    assert (log + [s])[..|log|] == log;
  }

  /** Seen within the time to live: what a snapshot at `now` is to report. */
  predicate IsAlive(log: seq<Sighting>, ttl: int, now: int, user: int, ip: Ip) {
    var t := Latest(log, user, ip);
    t.Some? && now - t.value <= ttl
  }

  /** The log has the user at this address within the time to live. */
  ghost predicate SeenLately(log: seq<Sighting>, ttl: int, now: int, user: int, ip: Ip) {
    exists j :: 0 <= j < |log| && log[j].user == user && log[j].ip == ip && now - log[j].at <= ttl
  }

  ghost predicate Ordered(log: seq<Sighting>) {
    forall i, j :: 0 <= i < j < |log| ==> log[i].at <= log[j].at
  }

  /** In a log whose times do not go back, alive means exactly that some sighting is recent enough. */
  lemma AliveIff(log: seq<Sighting>, ttl: int, now: int, user: int, ip: Ip)
    requires Ordered(log)
    ensures IsAlive(log, ttl, now, user, ip) <==> SeenLately(log, ttl, now, user, ip)
  {
    hide Latest, Ordered;
    if IsAlive(log, ttl, now, user, ip) {
      var j := LatestIsSighting(log, user, ip);
    }
    if SeenLately(log, ttl, now, user, ip) {
      var j :| 0 <= j < |log| && log[j].user == user && log[j].ip == ip && now - log[j].at <= ttl;
      LatestIsLater(log, j);
    }
  }

  lemma {:induction false} LatestIsSighting(log: seq<Sighting>, user: int, ip: Ip) returns (j: nat)
    requires Latest(log, user, ip).Some?
    ensures j < |log| && log[j] == Sighting(user, ip, Latest(log, user, ip).value)
  {
    j := |log| - 1;
    if !(log[j].user == user && log[j].ip == ip) {
      j := LatestIsSighting(log[..j], user, ip);
    }
  }

  lemma {:induction false} LatestIsLater(log: seq<Sighting>, j: nat)
    requires Ordered(log) && j < |log|
    ensures Latest(log, log[j].user, log[j].ip).Some? && Latest(log, log[j].user, log[j].ip).value >= log[j].at
    decreases |log|
  {
    var n := |log| - 1;
    if j < n && !(log[n].user == log[j].user && log[n].ip == log[j].ip) {
      LatestIsLater(log[..n], j);
    }
  }

  function ItemsOf(data: map<int, Items>, user: int): Items {
    if user in data then data[user] else map[]
  }

  /** What is kept is right, and what is missing had expired by `clock`. */
  ghost predicate Refines(data: map<int, Items>, log: seq<Sighting>, ttl: int, clock: int) {
    forall user, ip ::
      var items, t := ItemsOf(data, user), Latest(log, user, ip);
      && (t.Some? ==> t.value <= clock)
      && (if ip in items then t == Some(items[ip]) else t.Some? ==> clock - t.value > ttl)
  }

  ghost predicate NoneEmpty(data: map<int, Items>) {
    forall user :: user in data ==> data[user] != map[]
  }

  class OnlineTracker {
    const ttl: int
    var data: map<int, Items>

    ghost var log: seq<Sighting>
    ghost var clock: int // the latest time used so far: the clock does not run backwards

    ghost predicate Valid()
      reads this
    {
      && Refines(data, log, ttl, clock) && NoneEmpty(data)
      && Ordered(log) && forall j :: 0 <= j < |log| ==> log[j].at <= clock
    }

    constructor (ttl: int)
      ensures Valid() && this.ttl == ttl && log == [] && clock == 0
    {
      this.ttl, data, log, clock := ttl, map[], [], 0;
    }

    method Seen(user: int, ip: Ip, now: int)
      requires Valid() && clock <= now
      modifies this
      ensures Valid() && clock == now && log == old(log) + [Sighting(user, ip, now)]
    {
      ghost var was := data;
      if user !in data {
        data := data[user := map[]];
      }
      data := data[user := data[user][ip := now]];
      assert ip in data[user];
      ghost var s := Sighting(user, ip, now);
      SeenRefines(was, data, log, s, ttl, clock);
      log := log + [s];
      clock := now;
    }

    /** snapshot: for every user exactly the addresses whose latest sighting is within the time to live,
        each once; users with none are not listed.  What it forgets on the way is never missed. */
    method Snapshot(now: int) returns (out: seq<AliveIP>)
      requires Valid() && clock <= now
      modifies this
      ensures Valid() && clock == now && log == old(log)
      ensures forall j, k :: 0 <= j < k < |out| ==> out[j].id != out[k].id
      ensures forall e :: e in out ==> e.ips != [] && forall j, k :: 0 <= j < k < |e.ips| ==> e.ips[j] != e.ips[k]
      ensures forall user, ip :: Lists(out, user, ip) <==> IsAlive(log, ttl, now, user, ip)
      ensures forall user, ip :: Lists(out, user, ip) <==> SeenLately(log, ttl, now, user, ip)
    {
      hide Refines, Latest, IsAlive, SeenLately;
      ghost var was := data;
      out := Prune(now);
      AliveAreListed(was, log, ttl, clock, now, out);
      PrunedRefines(was, data, log, ttl, clock, now);
      clock := now;
      forall user, ip
        ensures IsAlive(log, ttl, now, user, ip) <==> SeenLately(log, ttl, now, user, ip)
      {
        AliveIff(log, ttl, now, user, ip);
      }
    }

    /** The loops of snapshot. */
    method Prune(now: int) returns (out: seq<AliveIP>)
      requires NoneEmpty(data)
      modifies this`data
      ensures NoneEmpty(data) && PrunedTo(old(data), data, ttl, now)
      ensures forall j, k :: 0 <= j < k < |out| ==> out[j].id != out[k].id
      ensures forall e :: e in out ==> Entry(e, ItemsOf(old(data), e.id), ttl, now)
      ensures forall user :: user in data <==> user in Listed(out)
    {
      hide Entry, UserPruned, Listed, NoneEmpty;
      NoneListed();
      NothingPruned(ttl, now);
      out := [];
      ghost var was := data;
      var left := data.Keys;
      while exists user :: user in left
        invariant NoneEmpty(data)
        invariant forall user :: user in left ==> user in was && user in data && data[user] == was[user]
        invariant forall user :: user !in left ==> UserPruned(ItemsOf(was, user), ItemsOf(data, user), ttl, now)
        invariant forall j, k :: 0 <= j < k < |out| ==> out[j].id != out[k].id
        invariant forall e :: e in out ==> e.id !in left && Entry(e, ItemsOf(was, e.id), ttl, now)
        invariant forall user :: user in Listed(out) ==> user !in left
        invariant forall user :: user !in left ==> (user in data <==> user in Listed(out))
        decreases left
      {
        var user :| user in left;
        left := left - {user};
        var entry := PruneEntry(user, now);
        if entry.Some? {
          ListedNext(out, entry.value);
          out := out + [entry.value];
        }
      }
    }

    /** The body of the outer loop, for one user. */
    method PruneEntry(user: int, now: int) returns (entry: Option<AliveIP>)
      requires user in data
      modifies this`data
      ensures UserPruned(old(data)[user], ItemsOf(data, user), ttl, now)
      ensures forall u :: u != user ==> (u in data <==> u in old(data)) && (u in data ==> data[u] == old(data)[u])
      ensures old(NoneEmpty(data)) ==> NoneEmpty(data)
      ensures entry.Some? <==> user in data
      ensures entry.Some? ==> entry.value.id == user && Entry(entry.value, old(data)[user], ttl, now)
    {
      var ips, items := PruneUser(data[user], now);
      data := data[user := items];
      entry := None;
      if |ips| > 0 {
        assert ips[0] in items;
        entry := Some(AliveIP(user, ips));
      }
      if |items| == 0 {
        data := data - {user};
      } else {
        assert exists ip :: ip in items;
      }
    }

    /** The inner loop: expired addresses are deleted, the others listed. */
    method PruneUser(was: Items, now: int) returns (ips: seq<Ip>, items: Items)
      ensures UserPruned(was, items, ttl, now)
      ensures forall ip :: ip in ips <==> ip in items
      ensures forall j, k :: 0 <= j < k < |ips| ==> ips[j] != ips[k]
    {
      ips, items := [], was;
      var left := was.Keys;
      while exists ip :: ip in left
        invariant left <= items.Keys <= was.Keys
        invariant forall ip :: ip in items ==> items[ip] == was[ip]
        invariant forall ip :: ip in was && ip !in left ==> (ip in items <==> now - was[ip] <= ttl)
        invariant forall ip :: ip in ips <==> ip in items && ip !in left
        invariant forall j, k :: 0 <= j < k < |ips| ==> ips[j] != ips[k]
        decreases left
      {
        var ip :| ip in left;
        left := left - {ip};
        if now - items[ip] > ttl {
          items := items - {ip};
          continue;
        }
        ips := ips + [ip];
      }
    }
  }

  ghost predicate UserPruned(was: Items, items: Items, ttl: int, now: int) {
    && (forall ip :: ip in items <==> ip in was && now - was[ip] <= ttl)
    && (forall ip :: ip in items ==> items[ip] == was[ip])
  }

  lemma NothingPruned(ttl: int, now: int)
    ensures UserPruned(map[], map[], ttl, now)
  {
  }

  ghost predicate PrunedTo(was: map<int, Items>, data: map<int, Items>, ttl: int, now: int) {
    forall user :: UserPruned(ItemsOf(was, user), ItemsOf(data, user), ttl, now)
  }

  /** An entry lists the addresses still alive of its user, each once. */
  ghost predicate Entry(e: AliveIP, was: Items, ttl: int, now: int) {
    && e.ips != []
    && (forall ip :: ip in e.ips <==> ip in was && now - was[ip] <= ttl)
    && (forall j, k :: 0 <= j < k < |e.ips| ==> e.ips[j] != e.ips[k])
  }

  predicate Lists(out: seq<AliveIP>, user: int, ip: Ip) {
    exists e :: e in out && e.id == user && ip in e.ips
  }

  lemma SeenRefines(was: map<int, Items>, data: map<int, Items>, log: seq<Sighting>, s: Sighting, ttl: int, clock: int)
    requires Refines(was, log, ttl, clock) && clock <= s.at
    requires data == was[s.user := ItemsOf(was, s.user)[s.ip := s.at]]
    ensures Refines(data, log + [s], ttl, s.at)
  {
    hide Latest;
    forall user, ip
      ensures var items, t := ItemsOf(data, user), Latest(log + [s], user, ip);
              && (t.Some? ==> t.value <= s.at)
              && (if ip in items then t == Some(items[ip]) else t.Some? ==> s.at - t.value > ttl)
    {
      LatestNext(log, s, user, ip);
    }
  }

  lemma PrunedRefines(was: map<int, Items>, data: map<int, Items>, log: seq<Sighting>, ttl: int, clock: int, now: int)
    requires Refines(was, log, ttl, clock) && clock <= now && PrunedTo(was, data, ttl, now)
    ensures Refines(data, log, ttl, now)
  {
    hide Latest, ItemsOf;
  }

  lemma AliveAreListed(was: map<int, Items>, log: seq<Sighting>, ttl: int, clock: int, now: int, out: seq<AliveIP>)
    requires Refines(was, log, ttl, clock) && clock <= now
    requires forall e :: e in out ==> Entry(e, ItemsOf(was, e.id), ttl, now)
    requires forall user, ip :: ip in ItemsOf(was, user) && now - ItemsOf(was, user)[ip] <= ttl ==> user in Listed(out)
    ensures forall user, ip :: IsAlive(log, ttl, now, user, ip) <==> Lists(out, user, ip)
  {
    hide Latest, ItemsOf;
    forall user, ip
      ensures IsAlive(log, ttl, now, user, ip) <==> Lists(out, user, ip)
    {
      var items := ItemsOf(was, user);
      assert IsAlive(log, ttl, now, user, ip) <==> ip in items && now - items[ip] <= ttl;
    }
  }

  /** Through the handlers: whoever is alive in the log of a run had been granted a lease for that address
      in the run. */
  lemma ReportedWereGranted(st: State, ttl: int, now: int, user: int, ip: Ip)
    requires HoldersValid(st) && IsAlive(st.seen, ttl, now, user, ip)
    ensures (user, ip) in st.granted
  {
    var j := LatestIsSighting(st.seen, user, ip);
  }
}
