/** The registry as the router keeps it: an indexed container of records, with one shared group object a type. */
module SeverInstanceMgrs {
  import opened Options
  import opened Integers
  import opened Ordered
  import opened Instances

  class InstContainer {
    var svrType: int32
    var policy: uint32
    var instSet: set<int32>

    constructor (svrType: int32, policy: uint32)
      ensures this.svrType == svrType && this.policy == policy && instSet == {}
    {
      this.svrType, this.policy, instSet := svrType, policy, {};
    }
  }

  datatype SvrInstInfo = SvrInstInfo(typeInst: int32, fd: int64, instId: int32, online: bool, info: InstContainer)

  /** The group objects in use. */
  ghost function Groups(c: map<int32, SvrInstInfo>): set<InstContainer> { set k | k in c :: c[k].info }

  /** The key of the entry a group was made for. */
  ghost function KeyOf(info: InstContainer): int32
    reads info`svrType
  {
    CalcTypeId(info.svrType, 0)
  }

  /** Records are filed under their key, and share the group object of the entry it was made for. */
  ghost predicate Shared(c: map<int32, SvrInstInfo>)
    reads Groups(c)`svrType
  {
    && (forall k :: k in c ==> c[k].typeInst == k)
    && (forall k :: k in c ==> KeyOf(c[k].info) in c && c[KeyOf(c[k].info)].info == c[k].info)
  }

  ghost function EntryOf(r: SvrInstInfo): Entry
    reads r.info`svrType
  {
    Entry(r.fd, r.instId, r.online, KeyOf(r.info))
  }

  ghost function GroupOf(info: InstContainer): Group
    reads info
  {
    Group(info.svrType, info.policy, info.instSet)
  }

  ghost function Entries(c: map<int32, SvrInstInfo>): map<int32, Entry>
    reads Groups(c)`svrType
  {
    map k | k in c :: EntryOf(c[k])
  }

  ghost function GroupMap(c: map<int32, SvrInstInfo>): map<int32, Group>
    reads Groups(c)
  {
    map k | k in c && KeyOf(c[k].info) == k :: GroupOf(c[k].info)
  }

  lemma SharedIsLinked(config: Option<seq<Policy>>, c: map<int32, SvrInstInfo>)
    requires Shared(c)
    ensures Linked(Registry(config, Entries(c), GroupMap(c)))
  {
    hide KeyOf, GroupOf;
  }

  /** Overwriting the connection of a record. */
  lemma Reconnected(c: map<int32, SvrInstInfo>, k: int32, fd: int64, online: bool)
    requires Shared(c) && k in c
    ensures var d := c[k := c[k].(fd := fd, online := online)];
            && Shared(d) && Groups(d) == Groups(c) && GroupMap(d) == GroupMap(c)
            && k in Entries(c) && Entries(d) == Entries(c)[k := Entries(c)[k].(fd := fd, online := online)]
  {
    hide KeyOf, GroupOf;
    var d := c[k := c[k].(fd := fd, online := online)];
    forall info ensures info in Groups(d) <==> info in Groups(c) {
      if info in Groups(c) {
        var j :| j in c && c[j].info == info;
        assert d[j].info == info;
      }
    }
  }

  /** What a container stands for only depends on it and on its group objects. */
  twostate lemma GroupsKept(c: map<int32, SvrInstInfo>)
    requires forall k :: k in c ==> unchanged(c[k].info)
    ensures Shared(c) == old(Shared(c)) && Entries(c) == old(Entries(c)) && GroupMap(c) == old(GroupMap(c))
  {
    hide CalcTypeId;
  }

  /** Each group appears once, under its key. */
  lemma GroupMapAt(c: map<int32, SvrInstInfo>, b: int32)
    requires Shared(c) && b in c
    ensures KeyOf(c[b].info) in GroupMap(c) && GroupMap(c)[KeyOf(c[b].info)] == GroupOf(c[b].info)
    ensures forall k :: k in GroupMap(c) ==> k in c && KeyOf(c[k].info) == k && GroupMap(c)[k] == GroupOf(c[k].info)
    ensures forall k :: k in c && KeyOf(c[k].info) == k ==> k in GroupMap(c)
    ensures forall k :: k in c && KeyOf(c[k].info) == KeyOf(c[b].info) ==> c[k].info == c[b].info
  {
    hide KeyOf, GroupOf;
  }

  /** Adding the basic entry of a type, with a new group. */
  lemma BasicAdded(c: map<int32, SvrInstInfo>, b: int32, info: InstContainer)
    requires Shared(c) && b !in c && KeyOf(info) == b && info.instSet == {}
    ensures var d := c[b := SvrInstInfo(b, 0, 0, false, info)];
            && Shared(d) && Groups(d) == Groups(c) + {info}
            && Entries(d) == Entries(c)[b := Entry(0, 0, false, b)]
            && GroupMap(d) == GroupMap(c)[b := Group(info.svrType, info.policy, {})]
  {
    hide KeyOf;
    var d := c[b := SvrInstInfo(b, 0, 0, false, info)];
    forall g ensures g in Groups(d) <==> g in Groups(c) + {info} {
      if g in Groups(c) {
        var j :| j in c && c[j].info == g;
        assert d[j].info == g;
      }
      if g == info {
        assert d[b].info == info;
      }
    }
  }

  /** Adding a record that shares the group of another. */
  lemma RecordAdded(c: map<int32, SvrInstInfo>, k: int32, id: int32, fd: int64, b: int32)
    requires Shared(c) && k !in c && b in c
    ensures var d := c[k := SvrInstInfo(k, fd, id, true, c[b].info)];
            && Shared(d) && Groups(d) == Groups(c) && GroupMap(d) == GroupMap(c)
            && Entries(d) == Entries(c)[k := Entry(fd, id, true, KeyOf(c[b].info))]
  {
    hide KeyOf, GroupOf;
    var d := c[k := SvrInstInfo(k, fd, id, true, c[b].info)];
    forall g ensures g in Groups(d) <==> g in Groups(c) {
      if g in Groups(c) {
        var j :| j in c && c[j].info == g;
        assert d[j].info == g;
      }
    }
  }

  class SeverInstanceMgr {
    var config: Option<seq<Policy>>
    /** The container, by its unique index; its other index finds some record with a given fd. */
    var container: map<int32, SvrInstInfo>

    ghost predicate Valid()
      reads this`container, Groups(container)
    {
      Shared(container)
    }

    ghost function Contents(): Registry
      reads this, Groups(container)
    {
      Registry(config, Entries(container), GroupMap(container))
    }

    constructor ()
      ensures Valid() && Contents() == NOTHING && container == map[]
    {
      config, container := None, map[];
    }

    method Init(config: Option<seq<Policy>>) returns (ret: int)
      requires Valid()
      modifies this`config
      ensures Valid() && ret == if config.None? then -1 else 0
      ensures Contents() == old(Contents()).(config := if ret == 0 then config else old(this.config))
    {
      hide Shared, Entries, GroupMap, Groups;
      if config.None? {
        return -1;
      }
      assert forall g: InstContainer :: g in Groups(container) ==> (g as object) != this;
      this.config := config;
      ret := 0;
    }

    /** The first policy configured for the type. */
    method GetPolicy(serverType: uint32) returns (policy: Option<Policy>)
      ensures policy == Instances.GetPolicy(config, serverType)
      ensures policy.Some? <==> config.Some? && Names(config.value, serverType)
      ensures policy.Some? ==> exists i :: FirstLine(config.value, serverType, i) && config.value[i] == policy.value
    {
      if config.None? {
        return None;
      }
      var list := config.value;
      FindPolicyExactly(list, serverType);
      for i := 0 to |list|
        invariant FindPolicy(list, serverType) == FindPolicy(list[i..], serverType)
      {
        if list[i].svrType == serverType {
          return Some(list[i]);
        }
      }
      policy := None;
    }

    method GetFdByTypeId(serverType: uint32, instanceId: int32) returns (fd: int64)
      requires Valid()
      ensures fd == Fd(Contents(), serverType, instanceId)
    {
      hide CalcTypeId, Shared, GroupMap;
      var id := CalcTypeId(serverType, instanceId);
      fd := if id in container then container[id].fd else 0;
    }

    method LogoutInstance(fd: int64)
      requires Valid()
      modifies this`container
      ensures Valid() && Groups(container) == old(Groups(container)) && Logout(old(Contents()), fd, Contents())
    {
      hide Shared, GroupMap, Groups, KeyOf;
      if fd == 0 {
        return;
      }
      if k :| k in container && container[k].fd == fd {
        assert Holds(Contents(), k, fd);
        Reconnected(container, k, 0, false);
        container := container[k := container[k].(fd := 0, online := false)];
        assert Contents() == Offline(old(Contents()), k);
      } else {
        assert forall k :: k in container ==> container[k].fd != fd;
      }
    }

    /** The ids in the set, in the order the set keeps them. */
    static method ToVector(ids: set<int32>) returns (all: seq<int32>)
      ensures all == Sorted(ids)
    {
      all := [];
      var rest := ids;
      while rest != {}
        invariant all + Sorted(rest) == Sorted(ids)
        decreases |rest|
      {
        LeastExists(rest);
        var id :| id in rest && forall other :: other in rest ==> id <= other;
        assert id == Least(rest);
        assert all + Sorted(rest) == all + [id] + Sorted(rest - {id});
        all, rest := all + [id], rest - {id};
      }
    }

    /** Puts the instances a packet goes to into the caller's vector. */
    method RouterPolicy(uid: nat, serverType: uint32, isBroadcast: bool, instVec: seq<int32>) returns (filled: seq<int32>)
      requires Valid()
      ensures Linked(Contents())
      ensures var targets := Targets(Contents(), uid, serverType, isBroadcast);
              && (isBroadcast && targets != [] ==> filled == targets)
              && (targets == [] ==> filled == instVec)
              && (instVec == [] ==> filled == targets)
              && filled == if targets != [] && Replaces(Contents(), serverType, isBroadcast) then targets else instVec + targets
    {
      hide *;
      IsLinked();
      Unfold();
      KeysAre();
      TargetsAre(Contents(), uid, serverType, isBroadcast);
      var id := CalcTypeId(serverType, 0);
      if id !in container {
        return instVec;
      }
      GroupMapAt(container, id);
      var info := container[id].info;
      GroupIs(info);
      var allInst := ToVector(info.instSet);
      filled := ByPolicy(allInst, info.policy, uid, isBroadcast, instVec);
      GroupsKept(container);
      Unfold();
    }

    /** The choice among the ids of a type. */
    static method ByPolicy(allInst: seq<int32>, policy: uint32, uid: nat, isBroadcast: bool, instVec: seq<int32>)
      returns (filled: seq<int32>)
      ensures var chosen := Choose(allInst, policy, uid, isBroadcast);
              filled == if chosen != [] && (isBroadcast || policy == POLICY_BROADCAST) then chosen else instVec + chosen
    {
      filled := instVec;
      if allInst == [] {
        return;
      }
      if isBroadcast {
        return allInst;
      }
      match policy {
        case 0 => assert instVec + [] == instVec;
        case 1 => filled := filled + [allInst[0]];
        case 2 => filled := filled + [allInst[uid % |allInst|]];
        case 3 => filled := allInst;
        case _ => assert instVec + [] == instVec;
      }
    }

    method LoginInstance(serverType: uint32, instanceId: int32, fd: int64) returns (ret: int)
      requires Valid()
      modifies this`container, Groups(container)
      ensures Valid() && fresh(Groups(container) - old(Groups(container)))
      ensures Linked(old(Contents()))
      ensures Contents() == Login(old(Contents()), serverType, instanceId, fd)
      ensures ret == if instanceId != 0 && config.Some? && Names(config.value, serverType) then 0 else -1
    {
      AcceptsExactly(config, serverType, instanceId);
      hide Login, CalcTypeId, Shared, GroupMap, Entries, KeyOf, Linked, Instances.GetPolicy, Names, FirstLine;
      IsLinked();
      var policy := GetPolicy(serverType);
      if policy.None? || instanceId == 0 {
        NotAccepted(Contents(), serverType, instanceId, fd);
        return -1;
      }
      LoginIs(Contents(), serverType, instanceId, fd);
      EnsureBasic(serverType, policy.value.policy);
      Register(CalcTypeId(serverType, 0), serverType, instanceId, fd);
      ret := 0;
    }

    /** Files an instance under its key, or gives its record a new connection. */
    method Register(basicId: int32, serverType: uint32, instanceId: int32, fd: int64)
      requires Valid() && basicId in container
      modifies this`container, container[basicId].info`instSet
      ensures Valid() && Groups(container) == old(Groups(container))
      ensures Linked(old(Contents())) && basicId in old(Contents()).entries
      ensures Contents() == Place(old(Contents()), basicId, CalcTypeId(serverType, instanceId), instanceId, fd)
    {
      hide *;
      IsLinked();
      KeysAre();
      var typeInst := CalcTypeId(serverType, instanceId);
      if typeInst !in container {
        AddRecord(typeInst, basicId, instanceId, fd);
      } else {
        Reconnect(typeInst, fd);
      }
      PlaceIs(old(Contents()), basicId, typeInst, instanceId, fd);
    }

    lemma KeysAre()
      ensures forall k :: k in container <==> k in Contents().entries
    {
      hide GroupMap;
    }

    method Reconnect(typeInst: int32, fd: int64)
      requires Valid() && typeInst in container
      modifies this`container
      ensures Valid() && Groups(container) == old(Groups(container)) && typeInst in old(Contents()).entries
      ensures Contents() == Reconnecting(old(Contents()), typeInst, fd)
    {
      hide Shared, GroupMap, Groups, KeyOf;
      Reconnected(container, typeInst, fd, true);
      container := container[typeInst := container[typeInst].(fd := fd, online := true)];
    }

    method AddRecord(typeInst: int32, basicId: int32, instanceId: int32, fd: int64)
      requires Valid() && basicId in container && typeInst !in container
      modifies this`container, container[basicId].info`instSet
      ensures Valid() && Groups(container) == old(Groups(container))
      ensures Linked(old(Contents())) && basicId in old(Contents()).entries
      ensures Contents() == Joining(old(Contents()), basicId, typeInst, instanceId, fd)
    {
      hide *;
      IsLinked();
      Unfold();
      var info := GrowSet(basicId, instanceId);
      Unfold();
      RecordAdded(container, typeInst, instanceId, fd, basicId);
      container := container[typeInst := SvrInstInfo(typeInst, fd, instanceId, true, info)];
      Unfold();
      JoiningIs(old(Contents()), basicId, typeInst, instanceId, fd);
    }

    /** A new id joins the set shared by the record's type. */
    method GrowSet(basicId: int32, instanceId: int32) returns (info: InstContainer)
      requires Valid() && basicId in container
      modifies container[basicId].info`instSet
      ensures Valid() && info == container[basicId].info
      ensures Entries(container) == old(Entries(container)) && KeyOf(info) == old(KeyOf(info))
      ensures KeyOf(info) in old(GroupMap(container))
      ensures var g := old(GroupMap(container))[KeyOf(info)];
              GroupMap(container)
              == old(GroupMap(container))[KeyOf(info) := g.(instSet := g.instSet + {instanceId})]
    {
      hide Shared, GroupMap, Groups, KeyOf, Entries;
      info := container[basicId].info;
      GroupMapAt(container, basicId);
      info.instSet := info.instSet + {instanceId};
      GroupMapAt(container, basicId);
    }

    lemma Unfold()
      ensures Valid() <==> Shared(container)
      ensures Contents() == Registry(config, Entries(container), GroupMap(container))
      ensures forall k :: k in container ==> k in Entries(container) && Entries(container)[k].group == KeyOf(container[k].info)
    {
      hide Shared, GroupMap, KeyOf;
    }

    /** The registry stays what it is while neither it nor its groups change. */
    twostate lemma Undisturbed()
      requires unchanged(this) && forall k :: k in container ==> unchanged(container[k].info)
      ensures Valid() == old(Valid()) && Contents() == old(Contents())
    {
      hide *;
      GroupsKept(container);
      Unfold();
      UnfoldOld();
    }

    twostate lemma UnfoldOld()
      ensures old(Valid()) == old(Shared(container))
      ensures old(Contents()) == old(Registry(config, Entries(container), GroupMap(container)))
    {
      hide Shared, GroupMap, Entries;
    }

    lemma IsLinked()
      requires Valid()
      ensures Linked(Contents())
    {
      SharedIsLinked(config, container);
    }

    /** Makes the basic entry of a type that has none. */
    method EnsureBasic(serverType: uint32, policy: uint32)
      requires Valid()
      modifies this`container
      ensures Valid() && fresh(Groups(container) - old(Groups(container)))
      ensures CalcTypeId(serverType, 0) in container
      ensures Contents() == WithBasic(old(Contents()), serverType, policy)
    {
      hide CalcTypeId, Shared, GroupMap, Groups, KeyOf;
      var basicId := CalcTypeId(serverType, 0);
      if basicId !in container {
        var info := new InstContainer(Int32(serverType), policy);
        BasicKeyIs(info, serverType);
        GroupsKept(container);
        BasicAdded(container, basicId, info);
        container := container[basicId := SvrInstInfo(basicId, 0, 0, false, info)];
      }
    }
  }

  lemma LoginIs(r: Registry, serverType: uint32, id: int32, fd: int64)
    requires Linked(r) && Accepts(r.config, serverType, id)
    ensures GetPolicy(r.config, serverType).Some?
    ensures var s := WithBasic(r, serverType, GetPolicy(r.config, serverType).value.policy);
            Login(r, serverType, id, fd) == Place(s, CalcTypeId(serverType, 0), CalcTypeId(serverType, id), id, fd)
  {
    hide Place, WithBasic, GetPolicy, Linked;
  }

  function Reconnecting(r: Registry, k: int32, fd: int64): Registry
    requires k in r.entries
  {
    r.(entries := r.entries[k := r.entries[k].(fd := fd, online := true)])
  }

  function Joining(r: Registry, b: int32, k: int32, id: int32, fd: int64): Registry
    requires Linked(r) && b in r.entries
  {
    var g := r.entries[b].group;
    r.(entries := r.entries[k := Entry(fd, id, true, g)],
       groups := r.groups[g := r.groups[g].(instSet := r.groups[g].instSet + {id})])
  }

  lemma JoiningIs(r: Registry, b: int32, k: int32, id: int32, fd: int64)
    requires Linked(r) && b in r.entries
    ensures r.entries[b].group in r.groups
    ensures var g := r.entries[b].group;
            Joining(r, b, k, id, fd)
            == Registry(r.config, r.entries[k := Entry(fd, id, true, g)],
                        r.groups[g := r.groups[g].(instSet := r.groups[g].instSet + {id})])
  {
  }

  lemma PlaceIs(r: Registry, b: int32, k: int32, id: int32, fd: int64)
    requires Linked(r) && b in r.entries
    ensures k in r.entries ==> Place(r, b, k, id, fd) == Reconnecting(r, k, fd)
    ensures k !in r.entries ==> Place(r, b, k, id, fd) == Joining(r, b, k, id, fd)
  {
    hide Linked;
  }

  lemma GroupIs(info: InstContainer)
    ensures GroupOf(info) == Group(info.svrType, info.policy, info.instSet)
  {
  }

  lemma TargetsAre(r: Registry, uid: nat, serverType: uint32, broadcast: bool)
    requires Linked(r)
    ensures var b := CalcTypeId(serverType, 0);
            && (b in r.entries ==> r.entries[b].group in r.groups)
            && Targets(r, uid, serverType, broadcast)
               == if b !in r.entries then []
                  else
                    var g := r.groups[r.entries[b].group];
                    Choose(Sorted(g.instSet), g.policy, uid, broadcast)
    ensures var b := CalcTypeId(serverType, 0);
            Replaces(r, serverType, broadcast)
            <==> b in r.entries && (broadcast || r.groups[r.entries[b].group].policy == POLICY_BROADCAST)
  {
    hide CalcTypeId, Choose, Sorted;
  }

  lemma NotAccepted(r: Registry, serverType: uint32, id: int32, fd: int64)
    requires Linked(r) && !Accepts(r.config, serverType, id)
    ensures Login(r, serverType, id, fd) == r
  {
    hide Accepts, Linked;
  }

  lemma BasicKeyIs(info: InstContainer, serverType: uint32)
    requires info.svrType == Int32(serverType)
    ensures KeyOf(info) == CalcTypeId(serverType, 0)
  {
    BasicKeyOfInt(serverType);
  }
}
