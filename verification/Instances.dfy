/** The registry of server instances as a value: what logging in and out does to it, and the routing policy. */
module Instances {
  import opened Options
  import opened Integers
  import opened Ordered

  // ----- the combined key -----

  function CalcTypeId(serverType: int, id: int32): int32 {
    Int32(serverType * 1024 + id)
  }

  /** The types and instance ids whose combined keys are told apart. */
  predicate InRange(serverType: uint32, id: int32) { serverType < 0x20_0000 && 1 <= id <= 1023 }

  /** The combined key gives the type and the instance id back. */
  lemma CalcTypeIdInjective(serverType: uint32, id: int32)
    requires serverType < 0x20_0000 && 0 <= id <= 1023
    ensures CalcTypeId(serverType, id) / 1024 == serverType && CalcTypeId(serverType, id) % 1024 == id
    ensures CalcTypeId(serverType, id) - id == CalcTypeId(serverType, 0)
  {
  }

  /** Two addresses share a key exactly when they differ by a multiple of 2 to the 32 in the combined form. */
  lemma SameKeyExactly(s: uint32, i: int32, t: uint32, j: int32)
    ensures CalcTypeId(s, i) == CalcTypeId(t, j) <==> ((s - t) * 1024 + (i - j)) % TWO_32 == 0
  {
    var x, y := s * 1024 + i, t * 1024 + j;
    assert (s - t) * 1024 + (i - j) == x - y;
    SameInt32(x, y);
    hide Int32;
  }

  /** Instance 1024 of a type has the key of the next type's basic entry. */
  lemma KeyCollision(serverType: uint32)
    requires serverType + 1 < TWO_32
    ensures CalcTypeId(serverType, 1024) == CalcTypeId(serverType + 1, 0)
  {
  }

  lemma BasicKeyOfInt(serverType: uint32)
    ensures CalcTypeId(Int32(serverType), 0) == CalcTypeId(serverType, 0)
  {
    var x := serverType * 1024;
    if serverType >= TWO_31 {
      assert (serverType - TWO_32) * 1024 == x - 1024 * TWO_32;
      assert (x - 1024 * TWO_32) % TWO_32 == x % TWO_32;
    }
  }

  // ----- the registry -----

  datatype Policy = Policy(svrType: uint32, policy: uint32)

  const POLICY_ROUTER := 0
  const POLICY_RANDOM := 1
  const POLICY_MOD := 2
  const POLICY_BROADCAST := 3

  /** A registered instance, or the basic entry of a type; `group` is the key of the entry its group was made for. */
  datatype Entry = Entry(fd: int64, instId: int32, online: bool, group: int32)

  /** What all the entries of a type share. */
  datatype Group = Group(svrType: int32, policy: uint32, instSet: set<int32>)

  datatype Registry = Registry(config: Option<seq<Policy>>, entries: map<int32, Entry>, groups: map<int32, Group>)

  const NOTHING := Registry(None, map[], map[])

  /** Every entry has a group, which it shares with the entry the group was made for. */
  ghost predicate Linked(r: Registry) {
    && (forall k :: k in r.entries ==> r.entries[k].group in r.groups)
    && (forall g :: g in r.groups ==> g in r.entries && r.entries[g].group == g)
  }

  /** The first policy configured for a type. */
  function FindPolicy(policies: seq<Policy>, serverType: uint32): Option<Policy> {
    if policies == [] then None
    else if policies[0].svrType == serverType then Some(policies[0])
    else FindPolicy(policies[1..], serverType)
  }

  function GetPolicy(config: Option<seq<Policy>>, serverType: uint32): Option<Policy> {
    if config.None? then None else FindPolicy(config.value, serverType)
  }

  /** Some line configures the type. */
  predicate Names(policies: seq<Policy>, serverType: uint32) {
    exists i :: 0 <= i < |policies| && policies[i].svrType == serverType
  }

  /** Line `i` is the first that configures the type. */
  predicate FirstLine(policies: seq<Policy>, serverType: uint32, i: int) {
    && 0 <= i < |policies| && policies[i].svrType == serverType
    && forall j :: 0 <= j < i ==> policies[j].svrType != serverType
  }

  /** The policy found is that of the first line for the type, and there is none only if no line is for the type. */
  lemma {:induction false} FindPolicyExactly(policies: seq<Policy>, serverType: uint32)
    ensures FindPolicy(policies, serverType).Some? <==> Names(policies, serverType)
    ensures FindPolicy(policies, serverType).Some? ==>
              exists i :: FirstLine(policies, serverType, i) && policies[i] == FindPolicy(policies, serverType).value
  {
    if policies != [] {
      var rest := policies[1..];
      FindPolicyExactly(rest, serverType);
      if policies[0].svrType == serverType {
        assert FirstLine(policies, serverType, 0);
      } else {
        if i :| 0 <= i < |rest| && rest[i].svrType == serverType {
          assert policies[i + 1].svrType == serverType;
        }
        if i :| 0 <= i < |policies| && policies[i].svrType == serverType {
          assert rest[i - 1].svrType == serverType;
        }
        if i :| FirstLine(rest, serverType, i) && rest[i] == FindPolicy(rest, serverType).value {
          forall j | 0 <= j < i + 1 ensures policies[j].svrType != serverType {
            assert j > 0 ==> policies[j] == rest[j - 1];
          }
          assert FirstLine(policies, serverType, i + 1);
        }
      }
    }
  }

  /** A login is accepted if and only if its id is not zero and a line configures its type. */
  lemma AcceptsExactly(config: Option<seq<Policy>>, serverType: uint32, id: int32)
    ensures Accepts(config, serverType, id) <==> id != 0 && config.Some? && Names(config.value, serverType)
  {
    if config.Some? {
      FindPolicyExactly(config.value, serverType);
    }
  }

  predicate Accepts(config: Option<seq<Policy>>, serverType: uint32, id: int32) {
    GetPolicy(config, serverType).Some? && id != 0
  }

  /** The registry with the basic entry of a type, made on the type's first login. */
  function WithBasic(r: Registry, serverType: uint32, policy: uint32): (s: Registry)
    ensures CalcTypeId(serverType, 0) in s.entries && (Linked(r) ==> Linked(s))
  {
    var b := CalcTypeId(serverType, 0);
    if b in r.entries then r
    else Registry(r.config, r.entries[b := Entry(0, 0, false, b)], r.groups[b := Group(Int32(serverType), policy, {})])
  }

  /** An instance filed under `k`: a new record shares the group of the record at `b`, and joins its set. */
  function Place(s: Registry, b: int32, k: int32, id: int32, fd: int64): Registry
    requires Linked(s) && b in s.entries
  {
    if k in s.entries then s.(entries := s.entries[k := s.entries[k].(fd := fd, online := true)])
    else
      var g := s.entries[b].group;
      s.(entries := s.entries[k := Entry(fd, id, true, g)],
         groups := s.groups[g := s.groups[g].(instSet := s.groups[g].instSet + {id})])
  }

  /** A login that is accepted. */
  function LoggedIn(r: Registry, serverType: uint32, id: int32, fd: int64, policy: uint32): Registry
    requires Linked(r)
  {
    Place(WithBasic(r, serverType, policy), CalcTypeId(serverType, 0), CalcTypeId(serverType, id), id, fd)
  }

  function Login(r: Registry, serverType: uint32, id: int32, fd: int64): Registry
    requires Linked(r)
  {
    if Accepts(r.config, serverType, id)
    then LoggedIn(r, serverType, id, fd, GetPolicy(r.config, serverType).value.policy) else r
  }

  ghost predicate Holds(r: Registry, k: int32, fd: int64) { k in r.entries && r.entries[k].fd == fd }

  function Offline(r: Registry, k: int32): Registry
    requires k in r.entries
  {
    r.(entries := r.entries[k := r.entries[k].(fd := 0, online := false)])
  }

  /** Logging out an fd takes some entry that holds it offline; fd 0 means nothing. */
  ghost predicate Logout(r: Registry, fd: int64, s: Registry) {
    if fd != 0 && exists k :: Holds(r, k, fd)
    then exists k :: Holds(r, k, fd) && s == Offline(r, k)
    else s == r
  }

  /** The connection of an instance, 0 when there is none. */
  function Fd(r: Registry, serverType: uint32, id: int32): int64 {
    var k := CalcTypeId(serverType, id);
    if k in r.entries then r.entries[k].fd else 0
  }

  /** The instances a packet without an instance id goes to. */
  ghost function Targets(r: Registry, uid: nat, serverType: uint32, broadcast: bool): seq<int32>
    requires Linked(r)
  {
    var b := CalcTypeId(serverType, 0);
    if b !in r.entries then []
    else
      var g := r.groups[r.entries[b].group];
      Choose(Sorted(g.instSet), g.policy, uid, broadcast)
  }

  /** Broadcasting replaces the caller's vector; any other choice is added at its end. */
  ghost predicate Replaces(r: Registry, serverType: uint32, broadcast: bool)
    requires Linked(r)
  {
    var b := CalcTypeId(serverType, 0);
    b in r.entries && (broadcast || r.groups[r.entries[b].group].policy == POLICY_BROADCAST)
  }

  function Choose(all: seq<int32>, policy: uint32, uid: nat, broadcast: bool): seq<int32> {
    if all == [] then []
    else if broadcast || policy == POLICY_BROADCAST then all
    else if policy == POLICY_RANDOM then [all[0]]
    else if policy == POLICY_MOD then [all[uid % |all|]]
    else []
  }

  // ----- what every operation keeps -----

  ghost predicate EntryOk(r: Registry, k: int32) {
    && k in r.entries && 0 <= k && k - k % 1024 in r.entries
    && r.entries[k].instId == k % 1024 && r.entries[k].group == k - k % 1024
    && (k % 1024 == 0 ==> r.entries[k] == Entry(0, 0, false, k))
  }

  ghost predicate GroupOk(r: Registry, g: int32) {
    && g in r.groups && 0 <= g && g % 1024 == 0 && r.groups[g].svrType == g / 1024
    && forall i: int32 :: i in r.groups[g].instSet <==> 1 <= i <= 1023 && g + i in r.entries
  }

  /** Each seen type has its basic entry, all its entries share one group, and the group's set is exactly
      the ids registered for the type. */
  ghost predicate Inv(r: Registry) {
    && Linked(r)
    && (forall k :: k in r.entries ==> EntryOk(r, k))
    && (forall g :: g in r.groups ==> GroupOk(r, g))
  }

  lemma InvParts(r: Registry, k: int32)
    requires Inv(r)
    ensures k in r.entries ==> EntryOk(r, k)
    ensures k in r.groups ==> GroupOk(r, k)
  {
    hide EntryOk, GroupOk, Linked;
  }

  /** What has to be shown of every key for the invariant to hold. */
  lemma InvWhole(r: Registry)
    requires Linked(r)
    requires forall k: int32 :: (k in r.entries ==> EntryOk(r, k)) && (k in r.groups ==> GroupOk(r, k))
    ensures Inv(r)
  {
    hide EntryOk, GroupOk, Linked;
  }

  lemma BasicLinked(r: Registry, serverType: uint32, policy: uint32)
    requires Linked(r)
    ensures Linked(WithBasic(r, serverType, policy)) && CalcTypeId(serverType, 0) in WithBasic(r, serverType, policy).entries
  {
    hide CalcTypeId;
  }

  /** The registry with a new basic entry at `b`. */
  function Based(r: Registry, b: int32, svrType: int32, policy: uint32): Registry {
    Registry(r.config, r.entries[b := Entry(0, 0, false, b)], r.groups[b := Group(svrType, policy, {})])
  }

  lemma BasedEntry(r: Registry, b: int32, svrType: int32, policy: uint32, k: int32)
    requires 0 <= b && b % 1024 == 0 && (k in r.entries ==> EntryOk(r, k))
    ensures var s := Based(r, b, svrType, policy); k in s.entries ==> EntryOk(s, k)
  {
  }

  lemma BasedGroup(r: Registry, b: int32, svrType: int32, policy: uint32, g: int32)
    requires 0 <= b && b % 1024 == 0 && svrType == b / 1024 && b !in r.entries && (g in r.groups ==> GroupOk(r, g))
    requires forall k: int32 :: k in r.entries ==> EntryOk(r, k)
    ensures var s := Based(r, b, svrType, policy); g in s.groups ==> GroupOk(s, g)
  {
    hide *;
    BasedGroups(r, b, svrType, policy, g);
    if g == b {
      forall k: int32 | k in r.entries ensures !(b < k < b + 1024) {
        if b < k < b + 1024 {
          BasicInside(r, k);
          NextBasic(b, k - b);
        }
      }
      NewGroupOk(r, b, svrType, policy);
    } else if g in r.groups {
      OtherGroup(r, b, svrType, policy, g);
    }
  }

  lemma BasedGroups(r: Registry, b: int32, svrType: int32, policy: uint32, g: int32)
    ensures g in Based(r, b, svrType, policy).groups <==> g in r.groups || g == b
  {
  }

  lemma NextBasic(b: int, i: int)
    requires b % 1024 == 0 && 1 <= i <= 1023
    ensures b + i - (b + i) % 1024 == b
  {
  }

  lemma NewGroupOk(r: Registry, b: int32, svrType: int32, policy: uint32)
    requires 0 <= b && b % 1024 == 0 && svrType == b / 1024
    requires forall k: int32 :: k in r.entries ==> !(b < k < b + 1024)
    ensures GroupOk(Based(r, b, svrType, policy), b)
  {
  }

  lemma OtherGroup(r: Registry, b: int32, svrType: int32, policy: uint32, g: int32)
    requires 0 <= b && b % 1024 == 0 && g != b && g in r.groups && GroupOk(r, g)
    ensures GroupOk(Based(r, b, svrType, policy), g)
  {
    var s := Based(r, b, svrType, policy);
    forall i: int32 ensures i in s.groups[g].instSet <==> 1 <= i <= 1023 && g + i in s.entries {
      assert i in r.groups[g].instSet <==> 1 <= i <= 1023 && g + i in r.entries;
    }
  }

  lemma BasicInside(r: Registry, k: int32)
    requires EntryOk(r, k)
    ensures k - k % 1024 in r.entries
  {
  }

  predicate InInt32(x: int) { -TWO_31 <= x < TWO_31 }

  lemma BasicAt(r: Registry, serverType: uint32, policy: uint32, k: int32)
    requires Inv(r) && serverType < 0x20_0000 && CalcTypeId(serverType, 0) !in r.entries
    ensures var s := WithBasic(r, serverType, policy);
            (k in s.entries ==> EntryOk(s, k)) && (k in s.groups ==> GroupOk(s, k))
  {
    CalcTypeIdInjective(serverType, 0);
    var b := CalcTypeId(serverType, 0);
    assert WithBasic(r, serverType, policy) == Based(r, b, Int32(serverType), policy);
    hide *;
    InvParts(r, k);
    forall j: int32 | j in r.entries ensures EntryOk(r, j) {
      InvParts(r, j);
    }
    BasedEntry(r, b, Int32(serverType), policy, k);
    SmallType(serverType);
    BasedGroup(r, b, Int32(serverType), policy, k);
  }

  lemma SmallType(serverType: uint32)
    requires serverType < 0x20_0000
    ensures Int32(serverType) == serverType
  {
  }

  lemma WithBasicKeepsInv(r: Registry, serverType: uint32, policy: uint32)
    requires Inv(r) && serverType < 0x20_0000
    ensures Inv(WithBasic(r, serverType, policy)) && CalcTypeId(serverType, 0) in WithBasic(r, serverType, policy).entries
  {
    InvLinked(r);
    BasicLinked(r, serverType, policy);
    if CalcTypeId(serverType, 0) !in r.entries {
      hide WithBasic, CalcTypeId, EntryOk, GroupOk, Inv, Linked;
      forall k: int32
        ensures var s := WithBasic(r, serverType, policy);
                (k in s.entries ==> EntryOk(s, k)) && (k in s.groups ==> GroupOk(s, k))
      {
        BasicAt(r, serverType, policy, k);
      }
      InvWhole(WithBasic(r, serverType, policy));
    }
  }

  /** The second half of a login, when the basic entry is there. */
  function Registered(s: Registry, b: int32, id: int32, fd: int64): Registry
    requires Linked(s) && b in s.entries && InInt32(b + id)
  {
    Place(s, b, b + id, id, fd)
  }

  lemma LoggedInIs(r: Registry, serverType: uint32, id: int32, fd: int64, policy: uint32)
    requires Linked(r) && InRange(serverType, id)
    ensures InInt32(CalcTypeId(serverType, 0) + id) && CalcTypeId(serverType, 0) % 1024 == 0 <= CalcTypeId(serverType, 0)
    ensures Linked(WithBasic(r, serverType, policy)) && CalcTypeId(serverType, 0) in WithBasic(r, serverType, policy).entries
    ensures LoggedIn(r, serverType, id, fd, policy)
         == Registered(WithBasic(r, serverType, policy), CalcTypeId(serverType, 0), id, fd)
  {
    CalcTypeIdInjective(serverType, 0);
    CalcTypeIdInjective(serverType, id);
    BasicLinked(r, serverType, policy);
    hide CalcTypeId, WithBasic, Linked;
  }

  lemma RegisteredEntry(s: Registry, b: int32, id: int32, fd: int64, j: int32)
    requires Linked(s) && EntryOk(s, b) && b % 1024 == 0 && 1 <= id <= 1023 && InInt32(b + id)
    requires j in s.entries ==> EntryOk(s, j)
    ensures var t := Registered(s, b, id, fd); j in t.entries ==> EntryOk(t, j)
  {
    hide Linked;
  }

  lemma RegisteredGroup(s: Registry, b: int32, id: int32, fd: int64, g: int32)
    requires Linked(s) && EntryOk(s, b) && b % 1024 == 0 && 1 <= id <= 1023 && InInt32(b + id)
    requires g in s.groups ==> GroupOk(s, g)
    ensures var t := Registered(s, b, id, fd); g in t.groups ==> GroupOk(t, g)
  {
    LinkedAt(s, b);
    hide Linked;
    var t := Registered(s, b, id, fd);
    if g in s.groups {
      forall i: int32 ensures i in t.groups[g].instSet <==> 1 <= i <= 1023 && g + i in t.entries {
        assert i in s.groups[g].instSet <==> 1 <= i <= 1023 && g + i in s.entries;
      }
    }
  }

  lemma LinkedAt(r: Registry, k: int32)
    requires Linked(r) && k in r.entries
    ensures r.entries[k].group in r.groups
  {
  }

  lemma RegisteredLinked(s: Registry, b: int32, id: int32, fd: int64)
    requires Linked(s) && b in s.entries && InInt32(b + id)
    ensures Linked(Registered(s, b, id, fd))
  {
  }

  lemma RegisteredKeepsInv(s: Registry, b: int32, id: int32, fd: int64)
    requires Inv(s) && Linked(s) && b in s.entries && b % 1024 == 0 && 1 <= id <= 1023 && InInt32(b + id)
    ensures Inv(Registered(s, b, id, fd))
  {
    hide *;
    InvParts(s, b);
    RegisteredLinked(s, b, id, fd);
    forall k: int32
      ensures var t := Registered(s, b, id, fd);
              (k in t.entries ==> EntryOk(t, k)) && (k in t.groups ==> GroupOk(t, k))
    {
      InvParts(s, k);
      RegisteredEntry(s, b, id, fd, k);
      RegisteredGroup(s, b, id, fd, k);
    }
    InvWhole(Registered(s, b, id, fd));
  }

  /** The type has its basic entry already, or fits the combined key; and the login is of an instance already filed under
      the key, or its id fits. */
  predicate Sound(r: Registry, serverType: uint32, id: int32) {
    var b, k := CalcTypeId(serverType, 0), CalcTypeId(serverType, id);
    && (b in r.entries || serverType < 0x20_0000)
    && if k in r.entries then k % 1024 != 0 else 1 <= id <= 1023
  }

  /** An entry that is there already, with another connection. */
  function Relogged(r: Registry, k: int32, fd: int64): Registry
    requires k in r.entries
  {
    r.(entries := r.entries[k := r.entries[k].(fd := fd, online := true)])
  }

  lemma ReloggedAt(r: Registry, k: int32, fd: int64, j: int32)
    requires EntryOk(r, k) && k % 1024 != 0
    requires (j in r.entries ==> EntryOk(r, j)) && (j in r.groups ==> GroupOk(r, j))
    ensures var s := Relogged(r, k, fd); (j in s.entries ==> EntryOk(s, j)) && (j in s.groups ==> GroupOk(s, j))
  {
    if j in r.groups {
      var s := Relogged(r, k, fd);
      forall i: int32 ensures i in s.groups[j].instSet <==> 1 <= i <= 1023 && j + i in s.entries {
        assert i in r.groups[j].instSet <==> 1 <= i <= 1023 && j + i in r.entries;
      }
    }
  }

  lemma ReloggedLinked(r: Registry, k: int32, fd: int64)
    requires Linked(r) && k in r.entries
    ensures Linked(Relogged(r, k, fd))
  {
  }

  lemma ReloggedKeepsInv(r: Registry, k: int32, fd: int64)
    requires Inv(r) && k in r.entries && k % 1024 != 0
    ensures Inv(Relogged(r, k, fd))
  {
    hide *;
    InvLinked(r);
    InvParts(r, k);
    ReloggedLinked(r, k, fd);
    forall j: int32
      ensures var s := Relogged(r, k, fd); (j in s.entries ==> EntryOk(s, j)) && (j in s.groups ==> GroupOk(s, j))
    {
      InvParts(r, j);
      ReloggedAt(r, k, fd, j);
    }
    InvWhole(Relogged(r, k, fd));
  }

  /** An instance never has the basic key of its type. */
  lemma NotBasicKey(serverType: uint32, id: int32)
    requires id != 0
    ensures CalcTypeId(serverType, id) != CalcTypeId(serverType, 0)
  {
    SameKeyExactly(serverType, id, serverType, 0);
    hide CalcTypeId;
  }

  lemma BasicKey(serverType: uint32)
    ensures CalcTypeId(serverType, 0) % 1024 == 0
  {
    var x := serverType * 1024;
    var w := (x - Int32(x)) / TWO_32;
    assert Int32(x) == 1024 * (serverType - 0x40_0000 * w);
  }

  /** An id that fits is added to a basic key without wrapping around. */
  lemma KeyAbove(serverType: uint32, id: int32)
    requires CalcTypeId(serverType, 0) >= 0 && 1 <= id <= 1023
    ensures InInt32(CalcTypeId(serverType, 0) + id) && CalcTypeId(serverType, id) == CalcTypeId(serverType, 0) + id
  {
    BasicKey(serverType);
  }

  /** A type that does not fit has a basic key that is negative or of another type. */
  lemma WideType(serverType: uint32)
    requires serverType >= 0x20_0000
    ensures CalcTypeId(serverType, 0) < 0 || CalcTypeId(serverType, 0) / 1024 != Int32(serverType)
  {
    var b := CalcTypeId(serverType, 0);
    assert b < TWO_31;
    hide CalcTypeId;
  }

  /** What a login leaves under the two keys it concerns. */
  lemma LoggedInAt(r: Registry, serverType: uint32, id: int32, fd: int64, policy: uint32)
    requires Linked(r) && id != 0
    ensures var s, b, k := LoggedIn(r, serverType, id, fd, policy), CalcTypeId(serverType, 0), CalcTypeId(serverType, id);
            && k in s.entries && s.entries[k].online
            && (k !in r.entries ==> s.entries[k].instId == id)
            && (b !in r.entries ==> b in s.entries && s.entries[b].group == b && b in s.groups
                                    && s.groups[b].svrType == Int32(serverType))
  {
    NotBasicKey(serverType, id);
    BasicLinked(r, serverType, policy);
    hide CalcTypeId, Linked;
  }

  /** A login that is not sound breaks the invariant. */
  lemma UnsoundBreaksInv(r: Registry, serverType: uint32, id: int32, fd: int64, policy: uint32)
    requires Inv(r) && Linked(r) && id != 0 && Inv(LoggedIn(r, serverType, id, fd, policy))
    ensures Sound(r, serverType, id)
  {
    hide *;
    LoggedInAt(r, serverType, id, fd, policy);
    var s, b, k := LoggedIn(r, serverType, id, fd, policy), CalcTypeId(serverType, 0), CalcTypeId(serverType, id);
    InvParts(s, k);
    InvParts(s, b);
    OnlineEntry(s, k);
    if b !in r.entries && serverType >= 0x20_0000 {
      WideType(serverType);
      GroupKey(s, b);
    }
    SoundIs(r, serverType, id);
  }

  lemma OnlineEntry(r: Registry, k: int32)
    requires EntryOk(r, k) && r.entries[k].online
    ensures k % 1024 != 0 && 1 <= r.entries[k].instId <= 1023
  {
  }

  lemma GroupKey(r: Registry, g: int32)
    requires GroupOk(r, g)
    ensures 0 <= g && r.groups[g].svrType == g / 1024
  {
  }

  lemma SoundIs(r: Registry, serverType: uint32, id: int32)
    requires CalcTypeId(serverType, 0) in r.entries || serverType < 0x20_0000
    requires var k := CalcTypeId(serverType, id); if k in r.entries then k % 1024 != 0 else 1 <= id <= 1023
    ensures Sound(r, serverType, id)
  {
    hide CalcTypeId;
  }

  /** Over an entry that is there a login only changes the connection. */
  lemma LoggedInOver(r: Registry, serverType: uint32, id: int32, fd: int64, policy: uint32)
    requires Linked(r) && CalcTypeId(serverType, id) in r.entries && id != 0
    ensures var s, k := WithBasic(r, serverType, policy), CalcTypeId(serverType, id);
            k in s.entries && LoggedIn(r, serverType, id, fd, policy) == Relogged(s, k, fd)
  {
    NotBasicKey(serverType, id);
    BasicLinked(r, serverType, policy);
    hide CalcTypeId, Linked;
  }

  /** A sound login of an instance that has no record. */
  lemma LoggedInNew(r: Registry, serverType: uint32, id: int32, fd: int64, policy: uint32)
    requires Linked(r) && Linked(WithBasic(r, serverType, policy)) && CalcTypeId(serverType, 0) >= 0 && 1 <= id <= 1023
    ensures var s, b := WithBasic(r, serverType, policy), CalcTypeId(serverType, 0);
            b in s.entries && InInt32(b + id) && LoggedIn(r, serverType, id, fd, policy) == Registered(s, b, id, fd)
  {
    KeyAbove(serverType, id);
    hide CalcTypeId, Linked;
  }

  lemma SoundKeepsInv(r: Registry, serverType: uint32, id: int32, fd: int64, policy: uint32)
    requires Inv(r) && Linked(r) && id != 0 && Sound(r, serverType, id)
    ensures Inv(LoggedIn(r, serverType, id, fd, policy))
  {
    hide *;
    SoundBasic(r, serverType, id, policy);
    if CalcTypeId(serverType, id) in r.entries {
      OverKeepsInv(r, serverType, id, fd, policy);
    } else {
      NewKeepsInv(r, serverType, id, fd, policy);
    }
  }

  lemma OverKeepsInv(r: Registry, serverType: uint32, id: int32, fd: int64, policy: uint32)
    requires Linked(r) && id != 0 && Sound(r, serverType, id) && CalcTypeId(serverType, id) in r.entries
    requires Inv(WithBasic(r, serverType, policy))
    ensures Inv(LoggedIn(r, serverType, id, fd, policy))
  {
    hide *;
    SoundParts(r, serverType, id);
    LoggedInOver(r, serverType, id, fd, policy);
    ReloggedKeepsInv(WithBasic(r, serverType, policy), CalcTypeId(serverType, id), fd);
  }

  lemma NewKeepsInv(r: Registry, serverType: uint32, id: int32, fd: int64, policy: uint32)
    requires Linked(r) && id != 0 && Sound(r, serverType, id) && CalcTypeId(serverType, id) !in r.entries
    requires var s := WithBasic(r, serverType, policy); Inv(s) && Linked(s) && CalcTypeId(serverType, 0) in s.entries
    ensures Inv(LoggedIn(r, serverType, id, fd, policy))
  {
    hide *;
    SoundParts(r, serverType, id);
    BasicKey(serverType);
    var s, b := WithBasic(r, serverType, policy), CalcTypeId(serverType, 0);
    InvParts(s, b);
    KeyNotNegative(s, b);
    LoggedInNew(r, serverType, id, fd, policy);
    RegisteredKeepsInv(s, b, id, fd);
  }

  lemma SoundParts(r: Registry, serverType: uint32, id: int32)
    requires Sound(r, serverType, id)
    ensures var k := CalcTypeId(serverType, id); if k in r.entries then k % 1024 != 0 else 1 <= id <= 1023
  {
    hide CalcTypeId;
  }

  lemma KeyNotNegative(r: Registry, k: int32)
    requires EntryOk(r, k)
    ensures 0 <= k
  {
  }

  lemma SoundBasic(r: Registry, serverType: uint32, id: int32, policy: uint32)
    requires Inv(r) && Linked(r) && Sound(r, serverType, id)
    ensures var s := WithBasic(r, serverType, policy); Inv(s) && Linked(s) && CalcTypeId(serverType, 0) in s.entries
  {
    BasicLinked(r, serverType, policy);
    if CalcTypeId(serverType, 0) !in r.entries {
      WithBasicKeepsInv(r, serverType, policy);
    }
    hide Inv, Linked, CalcTypeId;
  }

  lemma AcceptedLogin(r: Registry, serverType: uint32, id: int32, fd: int64)
    requires Inv(r) && Accepts(r.config, serverType, id)
    ensures Linked(r) && id != 0 && GetPolicy(r.config, serverType).Some?
    ensures Login(r, serverType, id, fd)
         == LoggedIn(r, serverType, id, fd, GetPolicy(r.config, serverType).value.policy)
  {
    InvLinked(r);
    hide LoggedIn, Inv, Linked, GetPolicy;
  }

  /** An accepted login keeps the invariant if and only if it is sound. */
  lemma LoginKeepsInvExactly(r: Registry, serverType: uint32, id: int32, fd: int64)
    requires Inv(r) && Accepts(r.config, serverType, id)
    ensures Linked(r)
    ensures Inv(Login(r, serverType, id, fd)) <==> Sound(r, serverType, id)
  {
    AcceptedLogin(r, serverType, id, fd);
    hide *;
    var policy := GetPolicy(r.config, serverType).value.policy;
    if Sound(r, serverType, id) {
      SoundKeepsInv(r, serverType, id, fd, policy);
    } else if Inv(LoggedIn(r, serverType, id, fd, policy)) {
      UnsoundBreaksInv(r, serverType, id, fd, policy);
    }
  }

  /** A login of a type and an id that fit the combined key is sound, whatever is registered. */
  lemma FittingIsSound(r: Registry, serverType: uint32, id: int32)
    requires InRange(serverType, id)
    ensures Sound(r, serverType, id)
  {
    CalcTypeIdInjective(serverType, id);
    hide CalcTypeId;
  }

  /** The invariant is kept by every login of an id and a type that fit the combined key. */
  lemma LoginKeepsInv(r: Registry, serverType: uint32, id: int32, fd: int64)
    requires Inv(r) && InRange(serverType, id)
    ensures Inv(Login(r, serverType, id, fd))
  {
    InvLinked(r);
    FittingIsSound(r, serverType, id);
    hide LoggedIn, Inv, Sound;
    if Accepts(r.config, serverType, id) {
      LoginKeepsInvExactly(r, serverType, id, fd);
    }
  }

  lemma InvLinked(r: Registry)
    requires Inv(r)
    ensures Linked(r)
  {
  }

  lemma OfflineAt(r: Registry, k: int32, j: int32)
    requires EntryOk(r, k) && r.entries[k].fd != 0
    requires (j in r.entries ==> EntryOk(r, j)) && (j in r.groups ==> GroupOk(r, j))
    ensures var s := Offline(r, k); (j in s.entries ==> EntryOk(s, j)) && (j in s.groups ==> GroupOk(s, j))
  {
    if j in r.groups {
      var s := Offline(r, k);
      forall i: int32 ensures i in s.groups[j].instSet <==> 1 <= i <= 1023 && j + i in s.entries {
        assert i in r.groups[j].instSet <==> 1 <= i <= 1023 && j + i in r.entries;
      }
    }
  }

  lemma OfflineKeepsInv(r: Registry, k: int32)
    requires Inv(r) && k in r.entries && r.entries[k].fd != 0
    ensures Inv(Offline(r, k))
  {
    hide *;
    InvParts(r, k);
    OfflineLinked(r, k);
    forall j: int32
      ensures var s := Offline(r, k); (j in s.entries ==> EntryOk(s, j)) && (j in s.groups ==> GroupOk(s, j))
    {
      InvParts(r, j);
      OfflineAt(r, k, j);
    }
    InvWhole(Offline(r, k));
  }

  lemma OfflineLinked(r: Registry, k: int32)
    requires Inv(r) && k in r.entries
    ensures Linked(Offline(r, k))
  {
    hide EntryOk, GroupOk;
  }

  lemma LogoutKeepsInv(r: Registry, fd: int64, s: Registry)
    requires Inv(r) && Logout(r, fd, s)
    ensures Inv(s)
  {
    hide Inv;
    if s != r {
      var k :| Holds(r, k, fd) && s == Offline(r, k);
      OfflineKeepsInv(r, k);
    }
  }

  /** A packet that reaches anyone reaches a registered instance, and that is the one it was addressed to exactly
      when its type and instance id fit the combined key. */
  lemma AddressedInstance(r: Registry, serverType: uint32, id: int32) returns (t: uint32, i: int32)
    requires Inv(r) && Fd(r, serverType, id) != 0
    ensures InRange(t, i) && Fd(r, t, i) == Fd(r, serverType, id)
    ensures InRange(serverType, id) <==> t == serverType && i == id
  {
    var k := CalcTypeId(serverType, id);
    hide Inv, CalcTypeId, GroupOk;
    InvParts(r, k);
    KeyParts(serverType, id, k);
    t, i := k / 1024, k % 1024;
  }

  lemma KeyParts(serverType: uint32, id: int32, k: int32)
    requires k == CalcTypeId(serverType, id) && k >= 0 && k % 1024 != 0
    ensures InRange(k / 1024, k % 1024) && CalcTypeId(k / 1024, k % 1024) == k
    ensures InRange(serverType, id) <==> k / 1024 == serverType && k % 1024 == id
  {
    if InRange(serverType, id) {
      CalcTypeIdInjective(serverType, id);
    }
  }
}
