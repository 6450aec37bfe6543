/** sessionLimiter (limits.go), in place: admission, the once-only release closure, and the per-user rate
    limiters.  Admission is proved against the functions of Limits. */
module Limiter {
  import opened Bytes
  import opened Addresses
  import opened Users
  import Limits

  // ---------- speed limits ----------

  const MIN_BURST: int := 64 * 1024

  /** A Go int is 64 bits wide: sums and products wrap. */
  function Wrap64(x: int): (r: int)
    ensures -0x8000_0000_0000_0000 <= r < 0x8000_0000_0000_0000
    ensures -0x8000_0000_0000_0000 <= x < 0x8000_0000_0000_0000 ==> r == x
  {
    (x + 0x8000_0000_0000_0000) % 0x1_0000_0000_0000_0000 - 0x8000_0000_0000_0000
  }

  /** Go's division truncates toward zero. */
  function Quo(a: int, b: int): int
    requires b > 0
  {
    if a >= 0 then a / b else -((-a) / b)
  }

  function SpeedLimitToBytes(mbps: int): int {
    if mbps <= 0 then 0 else Quo(Wrap64(Wrap64(mbps * 1000) * 1000), 8)
  }

  /** A limit of zero or less is none. */
  lemma NoLimitIsZero(mbps: int)
    requires mbps <= 0
    ensures SpeedLimitToBytes(mbps) == 0
  {
  }

  /** The conversion is exact up to about nine million gigabits, where a 64-bit product overflows, and
      wrong for every limit above; the first of those, for one, comes out as none. */
  lemma SpeedIsExactIff(mbps: int)
    requires mbps > 0
    ensures SpeedLimitToBytes(mbps) == mbps * 125_000 <==> mbps <= 9_223_372_036_854
    ensures mbps == 9_223_372_036_855 ==> SpeedLimitToBytes(mbps) < 0
  {
  }

  function Burst(bytesPerSecond: int): int {
    if bytesPerSecond < MIN_BURST then MIN_BURST else bytesPerSecond
  }

  /** rate.Limiter, as far as it is used: WaitN refuses only what exceeds the burst. */
  class RateLimiter {
    var limit: int
    var burst: int

    constructor (limit: int, burst: int)
      ensures this.limit == limit && this.burst == burst
    {
      this.limit, this.burst := limit, burst;
    }

    method SetLimit(limit: int)
      modifies this`limit
      ensures this.limit == limit
    {
      this.limit := limit;
    }

    method SetBurst(burst: int)
      modifies this`burst
      ensures this.burst == burst
    {
      this.burst := burst;
    }
  }

  /** waitForLimit: true unless WaitN refuses. */
  predicate WaitForLimit(limiter: RateLimiter?, size: int)
    reads limiter
  {
    limiter == null || size <= 0 || size <= limiter.burst
  }

  /** The bytes per second of a user's last entry, 0 when it has none. */
  function LastSpeed(users: seq<UserConfig>, id: int): int {
    if users == [] then 0
    else if users[|users| - 1].id == id then SpeedLimitToBytes(users[|users| - 1].speedLimit)
    else LastSpeed(users[..|users| - 1], id)
  }

  /** No entry of this user takes its speed limit away. */
  ghost predicate AlwaysLimited(users: seq<UserConfig>, id: int) {
    forall j :: 0 <= j < |users| && users[j].id == id ==> SpeedLimitToBytes(users[j].speedLimit) > 0
  }

  /** Identifiers may repeat in general; with distinct ones, the limited users are exactly those with a
      positive speed. */
  lemma {:induction false} LastSpeedUnique(users: seq<UserConfig>, j: nat)
    requires j < |users| && forall a, b :: 0 <= a < b < |users| ==> users[a].id != users[b].id
    ensures LastSpeed(users, users[j].id) == SpeedLimitToBytes(users[j].speedLimit)
    ensures AlwaysLimited(users, users[j].id) <==> SpeedLimitToBytes(users[j].speedLimit) > 0
  {
    if j < |users| - 1 {
      LastSpeedUnique(users[..|users| - 1], j);
    }
  }

  lemma {:induction false} LastSpeedAbsent(users: seq<UserConfig>, id: int)
    requires forall j :: 0 <= j < |users| ==> users[j].id != id
    ensures LastSpeed(users, id) == 0
  {
    if users != [] {
      LastSpeedAbsent(users[..|users| - 1], id);
    }
  }

  /** One entry of SyncUsers, and all of them in order, on the speeds in force. */
  function SyncStep(speeds: map<int, int>, user: UserConfig): map<int, int> {
    var bytesPerSecond := SpeedLimitToBytes(user.speedLimit);
    if bytesPerSecond <= 0 then speeds - {user.id} else speeds[user.id := bytesPerSecond]
  }

  function SyncAll(speeds: map<int, int>, users: seq<UserConfig>): map<int, int> {
    if users == [] then speeds
    else SyncStep(SyncAll(speeds, users[..|users| - 1]), users[|users| - 1])
  }

  /** A listed user ends with the speed of its last entry, if positive. */
  lemma {:induction false} SyncAllIsLast(speeds: map<int, int>, users: seq<UserConfig>, id: int)
    requires exists j :: 0 <= j < |users| && users[j].id == id
    ensures id in SyncAll(speeds, users) <==> LastSpeed(users, id) > 0
    ensures id in SyncAll(speeds, users) ==> SyncAll(speeds, users)[id] == LastSpeed(users, id)
  {
    var before := users[..|users| - 1];
    if users[|users| - 1].id != id {
      var j :| 0 <= j < |users| && users[j].id == id;
      assert before[j].id == id;
      SyncAllIsLast(speeds, before, id);
    }
  }

  lemma ListedSpeeds(speeds: map<int, int>, users: seq<UserConfig>)
    ensures var after := SyncAll(speeds, users);
            && (forall id :: id in Ids(users) && id in after <==> LastSpeed(users, id) > 0)
            && (forall id :: id in Ids(users) && id in after ==> after[id] == LastSpeed(users, id))
  {
    forall id
      ensures var after := SyncAll(speeds, users);
              && (id in Ids(users) && id in after <==> LastSpeed(users, id) > 0)
              && (id in Ids(users) && id in after ==> after[id] == LastSpeed(users, id))
    {
      if id in Ids(users) {
        SyncAllIsLast(speeds, users, id);
      } else {
        LastSpeedAbsent(users, id);
      }
    }
  }

  lemma AlwaysLimitedNext(users: seq<UserConfig>, i: nat)
    requires i < |users|
    ensures forall id :: AlwaysLimited(users[..i + 1], id) <==>
              AlwaysLimited(users[..i], id) && (id == users[i].id ==> SpeedLimitToBytes(users[i].speedLimit) > 0)
  {
    hide SpeedLimitToBytes;
    var before, after := users[..i], users[..i + 1];
    assert after[i] == users[i] && forall j :: 0 <= j < i ==> after[j] == before[j];
    forall id
      ensures AlwaysLimited(after, id) <==>
              AlwaysLimited(before, id) && (id == users[i].id ==> SpeedLimitToBytes(users[i].speedLimit) > 0)
    {
      if AlwaysLimited(after, id) {
        forall j | 0 <= j < i && before[j].id == id
          ensures SpeedLimitToBytes(before[j].speedLimit) > 0
        {
          assert after[j].id == id;
        }
      }
    }
  }

  function Ids(users: seq<UserConfig>): set<int> {
    set j | 0 <= j < |users| :: users[j].id
  }

  lemma IdsNext(users: seq<UserConfig>, i: nat)
    requires i < |users|
    ensures Ids(users[..i + 1]) == Ids(users[..i]) + {users[i].id}
    ensures users[..i + 1][..i] == users[..i] && users[..i + 1][i] == users[i]
  {
    assert users[..i + 1] == users[..i] + [users[i]];
    var all := users[..i + 1];
    assert forall j :: 0 <= j < i ==> all[j] == users[..i][j];
    assert users[i].id in Ids(all) by { assert all[i].id == users[i].id; }
    forall id | id in Ids(users[..i])
      ensures id in Ids(all)
    {
      var j :| 0 <= j < i && users[..i][j].id == id;
      assert all[j].id == id;
    }
  }

  lemma SetThenDrop<K, V>(m: map<K, V>, k: K, v: V)
    ensures m[k := v] - {k} == m - {k}
  {
  }

  lemma SetTwice<K, V>(m: map<K, V>, k: K, v: V, w: V)
    ensures m[k := v][k := w] == m[k := w]
  {
  }

  // ---------- the limiter ----------

  class SessionLimiter {
    var tcpCounts: map<int, int>
    var ipRefs: map<int, map<Ip, int>>
    var speedLimiter: map<int, RateLimiter>

    ghost var made: set<RateLimiter> // every limiter ever installed: a session keeps the one it was given

    function Counts(): Limits.Counts
      reads this
    {
      Limits.Counts(tcpCounts, ipRefs)
    }

    /** Each limiter belongs to one user; the burst of every limiter ever installed is at least 65536. */
    ghost predicate Valid()
      reads this`speedLimiter, this`made, made
    {
      && (forall a :: a in speedLimiter ==> speedLimiter[a] in made)
      && (forall a, b :: a in speedLimiter && b in speedLimiter && a != b ==> speedLimiter[a] != speedLimiter[b])
      && (forall l :: l in made ==> l.limit > 0 && l.burst == Burst(l.limit))
    }

    /** The limiters are set to these speeds. */
    ghost predicate Enforces(speeds: map<int, int>)
      reads this, speedLimiter.Values
    {
      forall id :: (id in speedLimiter <==> id in speeds) && (id in speedLimiter ==> speedLimiter[id].limit == speeds[id])
    }

    /** Exactly the users whose last entry has a positive speed have a limiter, set to that speed. */
    ghost predicate Serves(users: seq<UserConfig>)
      reads this`speedLimiter, speedLimiter.Values
    {
      && (forall id :: id in speedLimiter <==> LastSpeed(users, id) > 0)
      && (forall id :: id in speedLimiter ==> speedLimiter[id].limit == LastSpeed(users, id))
    }

    constructor ()
      ensures Valid() && Counts() == Limits.NO_COUNTS && speedLimiter == map[] && made == {}
    {
      tcpCounts, ipRefs, speedLimiter, made := map[], map[], map[], {};
    }

    /** acquire: on success a release closure, on failure nothing has changed. */
    method Acquire(user: UserConfig, ip: Ip, tcp: bool, enforce: bool)
      returns (r: Result<ReleaseFunc, Limits.LimitError>)
      modifies this`tcpCounts, this`ipRefs
      ensures match Limits.Acquire(old(Counts()), user, ip, tcp, enforce)
              case Ok(c) => && Counts() == c && r.Ok? && fresh(r.value) && r.value.limiter == this && !r.value.done
                            && r.value.lease == Limits.Lease(user.id, ip, tcp)
              case Err(e) => Counts() == old(Counts()) && r == Err(e)
    {
      ghost var was := ipRefs;
      var refused := Admit(user, ip, tcp, enforce);
      if refused.Some? {
        return Err(refused.value);
      }
      AddRef(user.id, ip, was);
      if tcp {
        tcpCounts := tcpCounts[user.id := Limits.TcpCount(Counts(), user.id) + 1];
      }
      var release := new ReleaseFunc(this, Limits.Lease(user.id, ip, tcp));
      r := Ok(release);
    }

    /** The checks of acquire.  A request that passes leaves its user with a map of addresses. */
    method Admit(user: UserConfig, ip: Ip, tcp: bool, enforce: bool) returns (refused: Option<Limits.LimitError>)
      modifies this`ipRefs
      ensures match Limits.Acquire(old(Counts()), user, ip, tcp, enforce)
              case Ok(_) => refused == None && ipRefs == if user.id in old(ipRefs) then old(ipRefs) else old(ipRefs)[user.id := map[]]
              case Err(e) => refused == Some(e) && ipRefs == old(ipRefs)
    {
      if tcp && user.tcpConnLimit > 0 && Limits.TcpCount(Counts(), user.id) >= user.tcpConnLimit {
        return Some(Limits.TcpLimitReached);
      }
      if enforce && user.deviceLimit > 0 {
        var refs := map[];
        if user.id in ipRefs {
          refs := ipRefs[user.id];
        } else {
          ipRefs := ipRefs[user.id := refs];
        }
        if (ip !in refs || refs[ip] == 0) && |refs| >= user.deviceLimit {
          return Some(Limits.DeviceLimitReached);
        }
      } else if user.id !in ipRefs {
        ipRefs := ipRefs[user.id := map[]];
      }
      refused := None;
    }

    /** refs[ip]++, whether the user's map was there before or has just been made. */
    method AddRef(user: int, ip: Ip, ghost was: map<int, map<Ip, int>>)
      requires ipRefs == if user in was then was else was[user := map[]]
      modifies this`ipRefs
      ensures var c := Limits.Counts(map[], was);
              ipRefs == was[user := Limits.Refs(c, user)[ip := Limits.RefCount(c, user, ip) + 1]]
    {
      var refs := ipRefs[user];
      refs := refs[ip := Limits.RefCount(Counts(), user, ip) + 1];
      SetTwice(was, user, map[], refs);
      ipRefs := ipRefs[user := refs];
    }

    method ReleaseTcp(user: int)
      modifies this`tcpCounts
      ensures tcpCounts == Limits.DropTcp(old(tcpCounts), user)
    {
      var n := Limits.TcpCount(Counts(), user);
      if n > 0 {
        SetThenDrop(tcpCounts, user, n - 1);
        tcpCounts := tcpCounts[user := n - 1];
      }
      if Limits.TcpCount(Counts(), user) == 0 {
        tcpCounts := tcpCounts - {user};
      }
    }

    method ReleaseIp(user: int, ip: Ip)
      modifies this`ipRefs
      ensures ipRefs == Limits.DropIp(old(ipRefs), user, ip)
    {
      if user !in ipRefs {
        return;
      }
      var refs := ipRefs[user];
      if ip in refs && refs[ip] > 1 {
        refs := refs[ip := refs[ip] - 1];
      } else {
        refs := refs - {ip};
      }
      SetThenDrop(ipRefs, user, refs);
      ipRefs := ipRefs[user := refs];
      if |refs| == 0 {
        ipRefs := ipRefs - {user};
      }
    }

    method Release(user: int, ip: Ip, tcp: bool)
      modifies this`tcpCounts, this`ipRefs
      ensures Counts() == Limits.Release(old(Counts()), user, ip, tcp)
    {
      if tcp {
        ReleaseTcp(user);
      }
      ReleaseIp(user, ip);
    }

    method GetSpeedLimiter(user: int) returns (limiter: RateLimiter?)
      requires Valid()
      ensures limiter == if user in speedLimiter then speedLimiter[user] else null
      ensures limiter != null ==> limiter in made
    {
      limiter := if user in speedLimiter then speedLimiter[user] else null;
    }

    /** The body of SyncUsers' first loop. */
    method SyncOne(user: UserConfig, ghost speeds: map<int, int>)
      requires Valid() && Enforces(speeds)
      modifies this`speedLimiter, this`made, speedLimiter.Values
      ensures Valid() && Enforces(SyncStep(speeds, user)) && old(made) <= made
      ensures forall l :: l in made ==> l in old(made) || fresh(l)
      ensures forall id :: id in speedLimiter ==>
                if id in old(speedLimiter) then speedLimiter[id] == old(speedLimiter)[id] else fresh(speedLimiter[id])
      ensures forall l :: l in speedLimiter.Values ==> l in old(speedLimiter.Values) || fresh(l)
    {
      hide SpeedLimitToBytes, Burst;
      var bytesPerSecond := SpeedLimitToBytes(user.speedLimit);
      if bytesPerSecond <= 0 {
        speedLimiter := speedLimiter - {user.id};
        return;
      }
      var burst := Burst(bytesPerSecond);
      if user.id in speedLimiter {
        var limiter := speedLimiter[user.id];
        limiter.SetLimit(bytesPerSecond);
        limiter.SetBurst(burst);
        return;
      }
      var limiter := new RateLimiter(bytesPerSecond, burst);
      made := made + {limiter};
      speedLimiter := speedLimiter[user.id := limiter];
    }

    /** The first loop of SyncUsers. */
    method SyncEntries(users: seq<UserConfig>, ghost speeds: map<int, int>) returns (seen: set<int>)
      requires Valid() && Enforces(speeds)
      modifies this`speedLimiter, this`made, speedLimiter.Values
      ensures Valid() && Enforces(SyncAll(speeds, users)) && seen == Ids(users) && old(made) <= made
      ensures forall l :: l in made ==> l in old(made) || fresh(l)
      ensures forall id :: id in old(speedLimiter) && AlwaysLimited(users, id) ==>
                id in speedLimiter && speedLimiter[id] == old(speedLimiter)[id]
    {
      hide SpeedLimitToBytes, Burst;
      ghost var was := speedLimiter;
      seen := {};
      for i := 0 to |users|
        invariant Valid() && Enforces(SyncAll(speeds, users[..i])) && seen == Ids(users[..i])
        invariant forall l :: l in speedLimiter.Values ==> l in was.Values || fresh(l)
        invariant old(made) <= made && forall l :: l in made ==> l in old(made) || fresh(l)
        invariant forall id :: id in was && AlwaysLimited(users[..i], id) ==>
                    id in speedLimiter && speedLimiter[id] == was[id]
      {
        IdsNext(users, i);
        AlwaysLimitedNext(users, i);
        seen := seen + {users[i].id};
        SyncOne(users[i], SyncAll(speeds, users[..i]));
        hide AlwaysLimited, Ids;
      }
      assert users[..|users|] == users;
    }

    /** SyncUsers: afterwards the users are limited as they say, and a user that had a limiter and is
        limited by all its entries keeps the same object. */
    method SyncUsers(users: seq<UserConfig>)
      requires Valid()
      modifies this`speedLimiter, this`made, speedLimiter.Values
      ensures Valid() && old(made) <= made
      ensures forall l :: l in made ==> l in old(made) || fresh(l)
      ensures Serves(users)
      ensures forall id :: id in speedLimiter && id in old(speedLimiter) && AlwaysLimited(users, id) ==>
                speedLimiter[id] == old(speedLimiter)[id]
    {
      hide Burst, Ids, AlwaysLimited, SyncAll, LastSpeed, SpeedLimitToBytes;
      ghost var speeds := map id | id in speedLimiter :: speedLimiter[id].limit;
      var seen := SyncEntries(users, speeds);
      ListedSpeeds(speeds, users);
      DropUnseen(seen);
    }

    /** The second loop of SyncUsers. */
    method DropUnseen(seen: set<int>)
      requires Valid()
      modifies this`speedLimiter
      ensures Valid()
      ensures forall id :: id in speedLimiter <==> id in old(speedLimiter) && id in seen
      ensures forall id :: id in speedLimiter ==> speedLimiter[id] == old(speedLimiter)[id]
    {
      ghost var was := speedLimiter;
      var ids := speedLimiter.Keys;
      while exists id :: id in ids
        invariant forall id :: id in speedLimiter <==> id in was && (id in ids || id in seen)
        invariant forall id :: id in speedLimiter ==> speedLimiter[id] == was[id]
        decreases ids
      {
        var id :| id in ids;
        ids := ids - {id};
        if id !in seen {
          speedLimiter := speedLimiter - {id};
        }
      }
    }
  }

  /** The closure acquire returns: its once flag makes later calls do nothing. */
  class ReleaseFunc {
    const limiter: SessionLimiter
    const lease: Limits.Lease
    var done: bool

    constructor (limiter: SessionLimiter, lease: Limits.Lease)
      ensures this.limiter == limiter && this.lease == lease && !done
    {
      this.limiter, this.lease, this.done := limiter, lease, false;
    }

    method Call()
      modifies this, limiter`tcpCounts, limiter`ipRefs
      ensures done
      ensures limiter.Counts() ==
              if old(done) then old(limiter.Counts())
              else Limits.Release(old(limiter.Counts()), lease.user, lease.ip, lease.tcp)
    {
      if !done {
        done := true;
        limiter.Release(lease.user, lease.ip, lease.tcp);
      }
    }
  }

  /** What SyncUsers leaves, outright, when each user has one entry: no limiter for a user without a limit
      or without an entry, and otherwise one of as many bytes per second as the limit says, with a burst of
      the larger of that and 65536. */
  lemma ServedUsers(l: SessionLimiter, users: seq<UserConfig>, id: int)
    requires l.Valid() && l.Serves(users) && forall a, b :: 0 <= a < b < |users| ==> users[a].id != users[b].id
    ensures (forall j :: 0 <= j < |users| ==> users[j].id != id) ==> id !in l.speedLimiter
    ensures forall j :: 0 <= j < |users| && users[j].id == id ==>
              && (users[j].speedLimit <= 0 ==> id !in l.speedLimiter)
              && (0 < users[j].speedLimit <= 9_223_372_036_854 ==>
                    && id in l.speedLimiter
                    && var speed := users[j].speedLimit * 125_000;
                       && l.speedLimiter[id].limit == speed
                       && l.speedLimiter[id].burst == if speed > 65536 then speed else 65536)
  {
    hide SpeedLimitToBytes, LastSpeed;
    if forall j :: 0 <= j < |users| ==> users[j].id != id {
      LastSpeedAbsent(users, id);
    }
    forall j | 0 <= j < |users| && users[j].id == id
      ensures users[j].speedLimit <= 0 ==> LastSpeed(users, id) == 0
      ensures 0 < users[j].speedLimit <= 9_223_372_036_854 ==> LastSpeed(users, id) == users[j].speedLimit * 125_000 > 0
    {
      LastSpeedUnique(users, j);
      if users[j].speedLimit <= 0 {
        NoLimitIsZero(users[j].speedLimit);
      } else if users[j].speedLimit <= 9_223_372_036_854 {
        SpeedIsExactIff(users[j].speedLimit);
      }
    }
  }

  /** WaitN never refuses by size: every limiter ever installed, dropped ones included, admits the largest
      request there is, a full 64 KiB datagram. */
  lemma NeverRefused(l: SessionLimiter, limiter: RateLimiter, size: int)
    requires l.Valid() && limiter in l.made && size <= 64 * 1024
    ensures WaitForLimit(limiter, size)
  {
  }
}
