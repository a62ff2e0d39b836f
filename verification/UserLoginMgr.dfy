/** The cache of where users have logged in, aged by time. */
module UserLoginMgrs {
  import opened Integers

  type uint64 = x: int | 0 <= x < 0x1_0000_0000_0000_0000

  datatype LoginInfo = LoginInfo(userid: uint64, tt: uint32, zone: int32)

  /** A record may be evicted once it is more than this many seconds old. */
  const EXPIRE := 30

  predicate Expired(info: LoginInfo, now: int64) { now - info.tt > EXPIRE }

  // ----- runs -----

  /** The cache as a value: the records by user. */
  type Cache = map<uint64, LoginInfo>

  datatype Event = Update(userid: uint64, zone: int32, tt: uint32) | Tick(now: int64)

  /** Ageing drops some of the expired records. */
  ghost predicate Aged(c: Cache, now: int64, d: Cache) {
    && (forall u :: u in d ==> u in c && d[u] == c[u])
    && (forall u :: u in c && u !in d ==> Expired(c[u], now))
  }

  ghost predicate Step(c: Cache, e: Event, d: Cache) {
    match e
    case Update(userid, zone, tt) => d == c[userid := LoginInfo(userid, tt, zone)]
    case Tick(now) => Aged(c, now, d)
  }

  ghost predicate Run(states: seq<Cache>, es: seq<Event>) {
    && |states| == |es| + 1 && states[0] == map[]
    && forall n :: 0 <= n < |es| ==> Step(states[n], es[n], states[n + 1])
  }

  function Zone(c: Cache, userid: uint64): int32 { if userid in c then c[userid].zone else 0 }

  /** Event `p` is the last update of the user before event `n`. */
  predicate LastUpdate(es: seq<Event>, n: nat, userid: uint64, p: nat)
    requires n <= |es|
  {
    && p < n && es[p].Update? && es[p].userid == userid
    && forall q :: p < q < n ==> !(es[q].Update? && es[q].userid == userid)
  }

  predicate NoUpdate(es: seq<Event>, n: nat, userid: uint64)
    requires n <= |es|
  {
    forall q :: 0 <= q < n ==> !(es[q].Update? && es[q].userid == userid)
  }

  /** Some tick between events `p` and `n` found the record of event `p` expired. */
  predicate Evictable(es: seq<Event>, n: nat, p: nat)
    requires p < n <= |es| && es[p].Update?
  {
    exists q :: p < q < n && es[q].Tick? && es[q].now - es[p].tt > EXPIRE
  }

  lemma {:induction false} NeverUpdated(states: seq<Cache>, es: seq<Event>, n: nat, userid: uint64)
    requires Run(states, es) && n <= |es| && NoUpdate(es, n, userid)
    ensures userid !in states[n]
  {
    if n > 0 {
      NeverUpdated(states, es, n - 1, userid);
      assert Step(states[n - 1], es[n - 1], states[n]);
    }
  }

  /** Over every run the zone of a user is that of the latest update, unless the record has been evicted, and that
      happens only at a tick that finds it more than 30 seconds old: at the latest update's own zone it stays as long as
      all ticks since then come within 30 seconds. */
  lemma {:induction false} ZoneIsLatest(states: seq<Cache>, es: seq<Event>, n: nat, userid: uint64, p: nat)
    requires Run(states, es) && n <= |es| && LastUpdate(es, n, userid, p)
    ensures userid in states[n] ==> states[n][userid] == LoginInfo(userid, es[p].tt, es[p].zone)
    ensures userid !in states[n] ==> Evictable(es, n, p)
    ensures !Evictable(es, n, p) ==> Zone(states[n], userid) == es[p].zone
    ensures (forall q :: p < q < n && es[q].Tick? ==> es[q].now <= es[p].tt + 30) ==>
              userid in states[n] && states[n][userid].zone == es[p].zone
    ensures userid !in states[n] ==> exists q :: p < q < n && es[q].Tick? && es[q].now > es[p].tt + 30
  {
    assert Step(states[n - 1], es[n - 1], states[n]);
    if p < n - 1 {
      assert LastUpdate(es, n - 1, userid, p);
      ZoneIsLatest(states, es, n - 1, userid, p);
      assert Evictable(es, n - 1, p) ==> Evictable(es, n, p);
    }
  }

  // ----- the cache itself -----

  ghost predicate SortedByTime(s: seq<LoginInfo>) {
    forall i, j :: 0 <= i < j < |s| ==> s[i].tt <= s[j].tt
  }

  ghost predicate DistinctUsers(s: seq<LoginInfo>) {
    forall i, j :: 0 <= i < j < |s| ==> s[i].userid != s[j].userid
  }

  /** The two indices hold the same records. */
  ghost predicate SameRecords(byTime: seq<LoginInfo>, byUser: Cache) {
    && (forall info :: info in byTime ==> info.userid in byUser && byUser[info.userid] == info)
    && (forall u :: u in byUser ==> byUser[u].userid == u && byUser[u] in byTime)
  }

  class UserLoginMgr {
    /** The index by time, which may have ties. */
    var byTime: seq<LoginInfo>
    /** The index by user. */
    var byUser: Cache

    ghost predicate Valid()
      reads this
    {
      SortedByTime(byTime) && DistinctUsers(byTime) && SameRecords(byTime, byUser)
    }

    constructor ()
      ensures Valid() && byUser == map[]
    {
      byTime, byUser := [], map[];
    }

    method GetLoginZone(userid: uint64) returns (zone: int32)
      ensures zone == if userid in byUser then byUser[userid].zone else 0
    {
      zone := if userid in byUser then byUser[userid].zone else 0;
    }

    /** Returns the zone the user was in before, 0 if that is not known. */
    method UpdateLoginInfo(userid: uint64, zone: int32, tt: uint32) returns (oldZone: int32)
      requires Valid()
      modifies this
      ensures Valid() && oldZone == if userid in old(byUser) then old(byUser)[userid].zone else 0
      ensures Step(old(byUser), Update(userid, zone, tt), byUser)
      ensures byUser == old(byUser)[userid := LoginInfo(userid, tt, zone)]
    {
      oldZone := 0;
      if userid in byUser {
        oldZone := byUser[userid].zone;
        Erase(userid);
      }
      Insert(LoginInfo(userid, tt, zone));
    }

    /** Drops some of the expired records. */
    method Tick(now: int64)
      requires Valid()
      modifies this
      ensures Valid() && Step(old(byUser), Event.Tick(now), byUser)
      ensures forall u :: u in byUser ==> u in old(byUser) && byUser[u] == old(byUser)[u]
      ensures forall u :: u in old(byUser) && old(byUser)[u].tt + 30 >= now ==> u in byUser
    {
      var i := 0;
      while i < |byTime|
        invariant Valid() && i <= |byTime| && Aged(old(byUser), now, byUser)
        decreases |byTime| - i
      {
        if now - byTime[i].tt > EXPIRE {
          if * {
            Erase(byTime[i].userid);
          } else {
            i := i + 1;
          }
        } else {
          i := i + 1;
        }
      }
    }

    method Insert(info: LoginInfo)
      requires Valid() && info.userid !in byUser
      modifies this
      ensures Valid() && byUser == old(byUser)[info.userid := info]
    {
      var i := 0;
      while i < |byTime| && byTime[i].tt <= info.tt
        invariant i <= |byTime| && forall j :: 0 <= j < i ==> byTime[j].tt <= info.tt
      {
        i := i + 1;
      }
      Inserted(byTime, byUser, i, info);
      byTime, byUser := byTime[..i] + [info] + byTime[i..], byUser[info.userid := info];
    }

    method Erase(userid: uint64)
      requires Valid() && userid in byUser
      modifies this
      ensures Valid() && byUser == old(byUser) - {userid} && |byTime| == |old(byTime)| - 1
    {
      var i := 0;
      assert byUser[userid] in byTime;
      while byTime[i].userid != userid
        invariant i < |byTime| && forall j :: 0 <= j < i ==> byTime[j].userid != userid
        decreases |byTime| - i
      {
        i := i + 1;
      }
      Erased(byTime, byUser, i);
      byTime, byUser := byTime[..i] + byTime[i + 1..], byUser - {userid};
    }
  }

  lemma Inserted(byTime: seq<LoginInfo>, byUser: Cache, i: nat, info: LoginInfo)
    requires SortedByTime(byTime) && DistinctUsers(byTime) && SameRecords(byTime, byUser)
    requires i <= |byTime| && info.userid !in byUser
    requires forall j :: 0 <= j < i ==> byTime[j].tt <= info.tt
    requires i < |byTime| ==> info.tt < byTime[i].tt
    ensures var s := byTime[..i] + [info] + byTime[i..];
            SortedByTime(s) && DistinctUsers(s) && SameRecords(s, byUser[info.userid := info])
  {
    InsertedSorted(byTime, i, info);
    forall j | 0 <= j < |byTime| ensures byTime[j].userid != info.userid {
      assert byTime[j] in byTime;
    }
    InsertedDistinct(byTime, i, info);
    hide *;
    InsertedMembers(byTime, i, info);
    InsertedRecords(byTime, byTime[..i] + [info] + byTime[i..], byUser, info);
  }

  lemma InsertedMembers(byTime: seq<LoginInfo>, i: nat, info: LoginInfo)
    requires i <= |byTime|
    ensures forall other :: other in byTime[..i] + [info] + byTime[i..] <==> other in byTime || other == info
  {
    assert byTime == byTime[..i] + byTime[i..];
  }

  lemma InsertedRecords(byTime: seq<LoginInfo>, s: seq<LoginInfo>, byUser: Cache, info: LoginInfo)
    requires SameRecords(byTime, byUser) && info.userid !in byUser
    requires forall other :: other in s <==> other in byTime || other == info
    ensures SameRecords(s, byUser[info.userid := info])
  {
  }

  lemma InsertedSorted(byTime: seq<LoginInfo>, i: nat, info: LoginInfo)
    requires SortedByTime(byTime) && i <= |byTime|
    requires forall j :: 0 <= j < i ==> byTime[j].tt <= info.tt
    requires i < |byTime| ==> info.tt < byTime[i].tt
    ensures SortedByTime(byTime[..i] + [info] + byTime[i..])
  {
    forall j | i <= j < |byTime| ensures info.tt <= byTime[j].tt {
    }
  }

  lemma InsertedDistinct(byTime: seq<LoginInfo>, i: nat, info: LoginInfo)
    requires DistinctUsers(byTime) && i <= |byTime|
    requires forall j :: 0 <= j < |byTime| ==> byTime[j].userid != info.userid
    ensures DistinctUsers(byTime[..i] + [info] + byTime[i..])
  {
  }

  lemma Erased(byTime: seq<LoginInfo>, byUser: Cache, i: nat)
    requires SortedByTime(byTime) && DistinctUsers(byTime) && SameRecords(byTime, byUser) && i < |byTime|
    ensures var s := byTime[..i] + byTime[i + 1..];
            SortedByTime(s) && DistinctUsers(s) && SameRecords(s, byUser - {byTime[i].userid})
  {
    ErasedMembers(byTime, i);
    ErasedOrder(byTime, i);
    hide SortedByTime, DistinctUsers;
    assert byTime[i] in byTime;
  }

  lemma ErasedOrder(byTime: seq<LoginInfo>, i: nat)
    requires SortedByTime(byTime) && DistinctUsers(byTime) && i < |byTime|
    ensures SortedByTime(byTime[..i] + byTime[i + 1..]) && DistinctUsers(byTime[..i] + byTime[i + 1..])
  {
    var s := byTime[..i] + byTime[i + 1..];
    forall j | 0 <= j < |s| ensures s[j] == byTime[if j < i then j else j + 1] {
    }
  }

  lemma ErasedMembers(byTime: seq<LoginInfo>, i: nat)
    requires DistinctUsers(byTime) && i < |byTime|
    ensures var s := byTime[..i] + byTime[i + 1..];
            forall other :: other in s <==> other in byTime && other.userid != byTime[i].userid
  {
    var s := byTime[..i] + byTime[i + 1..];
    forall other ensures other in s <==> other in byTime && other.userid != byTime[i].userid {
      if other in byTime && other.userid != byTime[i].userid {
        var j :| 0 <= j < |byTime| && byTime[j] == other;
        assert if j < i then s[j] == other else s[j - 1] == other;
      }
      if other in s {
        var j :| 0 <= j < |s| && s[j] == other;
        assert byTime[if j < i then j else j + 1] == other;
      }
    }
  }
}
