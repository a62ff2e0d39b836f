/** The router: what it does with a packet. */
module RouterApplications {
  import opened Options
  import opened Integers
  import opened Ordered
  import opened Wire
  import opened Instances
  import opened SeverInstanceMgrs
  import InstanceRuns
  import Transfers
  import opened TransferMgrs

  // ----- packets -----

  /** The size of a header as sent. */
  const FRAME_SIZE := 50

  const CMD_SOCKET_CLIENT_IN := 0x1
  const CMD_SOCKET_CLIENT_OUT := 0x2
  const CMD_REGISTER_SERVER_REQ := 0x3
  const CMD_REGISTER_SERVER_RSP := 0x4
  const CMD_SVR_HEATBEAT := 0x10

  /** The fields of a header that routing looks at. */
  datatype Frame = Frame(isBroadcast: uint16, dstZone: uint16, dstSvrType: uint32, dstInstId: uint32, cmd: uint32, userid: nat)

  predicate IsControl(cmd: uint32) {
    || cmd == CMD_SOCKET_CLIENT_IN || cmd == CMD_SOCKET_CLIENT_OUT || cmd == CMD_REGISTER_SERVER_REQ
    || cmd == CMD_REGISTER_SERVER_RSP || cmd == CMD_SVR_HEATBEAT
  }

  datatype Send = Send(fd: int64, packet: bytes)

  // ----- what a packet leads to -----

  function SendOne(r: Registry, t: uint32, id: int32, packet: bytes): seq<Send> {
    if Fd(r, t, id) == 0 then [] else [Send(Fd(r, t, id), packet)]
  }

  function SendAll(r: Registry, t: uint32, ids: seq<int32>, packet: bytes): seq<Send> {
    if ids == [] then [] else SendAll(r, t, ids[..|ids| - 1], packet) + SendOne(r, t, ids[|ids| - 1], packet)
  }

  /** The transfer server for a user, by place. */
  function SendAway(vec: seq<Transfers.TransferInfo>, userid: nat, packet: bytes): seq<Send> {
    if vec == [] then [] else [Send(vec[userid % |vec|].fd, packet)]
  }

  /** The sends a packet leads to, given the registry and the transfer connections. */
  ghost function Forwarded(r: Registry, vec: seq<Transfers.TransferInfo>, zone: int32, f: Frame, packet: bytes): seq<Send>
    requires Linked(r)
  {
    if IsControl(f.cmd) then []
    else if f.dstZone != zone then SendAway(vec, f.userid, packet)
    else if f.dstInstId != 0 then SendOne(r, f.dstSvrType, Int32(f.dstInstId), packet)
    else SendAll(r, f.dstSvrType, Targets(r, f.userid, f.dstSvrType, f.isBroadcast != 0), packet)
  }

  lemma {:induction false} SendAllAre(r: Registry, t: uint32, ids: seq<int32>, packet: bytes, s: Send)
    ensures s in SendAll(r, t, ids, packet) <==>
              s.packet == packet && s.fd != 0 && exists i :: 0 <= i < |ids| && Fd(r, t, ids[i]) == s.fd
  {
    hide Fd;
    if ids != [] {
      var n := |ids| - 1;
      SendAllAre(r, t, ids[..n], packet, s);
      if i :| 0 <= i < |ids| && Fd(r, t, ids[i]) == s.fd {
        assert i < n ==> ids[..n][i] == ids[i];
      }
      if i :| 0 <= i < n && Fd(r, t, ids[..n][i]) == s.fd {
        assert ids[i] == ids[..n][i];
      }
    }
  }

  ghost predicate Distinct(sends: seq<Send>) {
    forall i, j :: 0 <= i < j < |sends| ==> sends[i] != sends[j]
  }

  /** Instances that are connected have different connections. */
  ghost predicate Apart(r: Registry, t: uint32, ids: seq<int32>) {
    forall i, j :: 0 <= i < j < |ids| && Fd(r, t, ids[i]) != 0 ==> Fd(r, t, ids[i]) != Fd(r, t, ids[j])
  }

  /** No connection is sent to twice if and only if the instances that are connected have different connections. */
  lemma {:induction false} SentOnceExactly(r: Registry, t: uint32, ids: seq<int32>, packet: bytes)
    ensures Distinct(SendAll(r, t, ids, packet)) <==> Apart(r, t, ids)
  {
    hide Fd;
    if ids != [] {
      var n := |ids| - 1;
      SentOnceExactly(r, t, ids[..n], packet);
      var sends := SendAll(r, t, ids[..n], packet);
      ApartNext(r, t, ids);
      SendAllAre(r, t, ids[..n], packet, Send(Fd(r, t, ids[n]), packet));
      hide Apart, SendAll;
      if Fd(r, t, ids[n]) != 0 {
        assert SendAll(r, t, ids, packet) == sends + [Send(Fd(r, t, ids[n]), packet)] by {
          SendAllNext(r, t, ids, packet);
        }
        DistinctNext(sends, Send(Fd(r, t, ids[n]), packet));
        assert forall i :: 0 <= i < n ==> ids[..n][i] == ids[i];
      } else {
        SendAllNext(r, t, ids, packet);
        assert SendAll(r, t, ids, packet) == sends;
      }
    }
  }

  lemma SendAllNext(r: Registry, t: uint32, ids: seq<int32>, packet: bytes)
    requires ids != []
    ensures SendAll(r, t, ids, packet)
         == SendAll(r, t, ids[..|ids| - 1], packet) + SendOne(r, t, ids[|ids| - 1], packet)
  {
    hide Fd;
  }

  lemma ApartNext(r: Registry, t: uint32, ids: seq<int32>)
    requires ids != []
    ensures var n := |ids| - 1;
            Apart(r, t, ids) <==>
              Apart(r, t, ids[..n]) && (Fd(r, t, ids[n]) == 0 || forall i :: 0 <= i < n ==> Fd(r, t, ids[i]) != Fd(r, t, ids[n]))
  {
    hide Fd;
    var n := |ids| - 1;
    assert forall i :: 0 <= i < n ==> ids[..n][i] == ids[i];
  }

  lemma DistinctNext(sends: seq<Send>, s: Send)
    ensures Distinct(sends + [s]) <==> Distinct(sends) && s !in sends
  {
    if Distinct(sends + [s]) {
      forall i | 0 <= i < |sends| ensures sends[i] != s {
        assert (sends + [s])[i] != (sends + [s])[|sends|];
      }
      forall i, j | 0 <= i < j < |sends| ensures sends[i] != sends[j] {
        assert (sends + [s])[i] != (sends + [s])[j];
      }
    }
  }

  lemma {:induction false} SendAllLength(r: Registry, t: uint32, ids: seq<int32>, packet: bytes)
    ensures |SendAll(r, t, ids, packet)| <= |ids|
  {
    hide Fd;
    if ids != [] {
      SendAllLength(r, t, ids[..|ids| - 1], packet);
    }
  }

  /** The places at which the list has an instance with the connection. */
  ghost function Having(r: Registry, t: uint32, ids: seq<int32>, fd: int64): set<nat> {
    set i: nat | i < |ids| && Fd(r, t, ids[i]) == fd
  }

  lemma HavingNext(r: Registry, t: uint32, ids: seq<int32>, fd: int64)
    requires ids != []
    ensures var n := |ids| - 1;
            |Having(r, t, ids, fd)| == |Having(r, t, ids[..n], fd)| + if Fd(r, t, ids[n]) == fd then 1 else 0
  {
    hide Fd;
    var n: nat := |ids| - 1;
    assert forall i: nat :: i < n ==> ids[..n][i] == ids[i];
    if Fd(r, t, ids[n]) == fd {
      assert Having(r, t, ids, fd) == Having(r, t, ids[..n], fd) + {n};
    } else {
      assert Having(r, t, ids, fd) == Having(r, t, ids[..n], fd);
    }
  }

  /** A connection is sent the packet once for each place at which the list has an instance with it. */
  lemma {:induction false} SentTimes(r: Registry, t: uint32, ids: seq<int32>, packet: bytes, fd: int64)
    requires fd != 0
    ensures multiset(SendAll(r, t, ids, packet))[Send(fd, packet)] == |Having(r, t, ids, fd)|
  {
    hide Fd, Having;
    if ids == [] {
      NoneHaving(r, t, fd);
    } else {
      SentTimes(r, t, ids[..|ids| - 1], packet, fd);
      HavingNext(r, t, ids, fd);
      SendAllNext(r, t, ids, packet);
    }
  }

  lemma NoneHaving(r: Registry, t: uint32, fd: int64)
    ensures Having(r, t, [], fd) == {}
  {
  }

  /** The five commands between servers are not forwarded, and every other one is a packet to forward. */
  lemma ControlExactly(cmd: uint32)
    ensures IsControl(cmd) <==> cmd == 0x1 || cmd == 0x2 || cmd == 0x3 || cmd == 0x4 || cmd == 0x10
  {
  }

  lemma ControlSendsNothing(r: Registry, vec: seq<Transfers.TransferInfo>, zone: int32, f: Frame, packet: bytes)
    requires Linked(r)
    requires f.cmd == 0x1 || f.cmd == 0x2 || f.cmd == 0x3 || f.cmd == 0x4 || f.cmd == 0x10
    ensures Forwarded(r, vec, zone, f, packet) == []
  {
    hide Linked, Targets;
    ControlExactly(f.cmd);
  }

  /** A packet for another zone goes to the transfer server at the place of its user, or nowhere when there is none; it
      never goes to an instance of this zone. */
  lemma OutOfZone(r: Registry, vec: seq<Transfers.TransferInfo>, zone: int32, f: Frame, packet: bytes)
    requires Linked(r) && !IsControl(f.cmd) && f.dstZone != zone
    ensures Forwarded(r, vec, zone, f, packet) == if vec == [] then [] else [Send(vec[f.userid % |vec|].fd, packet)]
  {
    hide Linked, Targets;
  }

  /** The transfer servers held that have a smaller id. */
  ghost function Smaller(vec: seq<Transfers.TransferInfo>, id: int32): set<Transfers.TransferInfo> {
    set e | e in vec && e.instId < id
  }

  /** In a sorted vector the entry at place `k` has exactly `k` smaller ones. */
  lemma {:induction false} SmallerAt(vec: seq<Transfers.TransferInfo>, k: nat, id: int32)
    requires Transfers.SortedById(vec) && k <= |vec|
    requires (forall j :: 0 <= j < k ==> vec[j].instId < id) && forall j :: k <= j < |vec| ==> vec[j].instId >= id
    ensures |Smaller(vec, id)| == k
  {
    if vec == [] {
      assert Smaller(vec, id) == {};
    } else {
      var n: nat := |vec| - 1;
      SmallerAt(vec[..n], if k <= n then k else n, id);
      hide Smaller;
      SmallerNext(vec, id);
    }
  }

  lemma SmallerNext(vec: seq<Transfers.TransferInfo>, id: int32)
    requires Transfers.SortedById(vec) && vec != []
    ensures var n := |vec| - 1;
            |Smaller(vec, id)| == |Smaller(vec[..n], id)| + if vec[n].instId < id then 1 else 0
  {
    var n := |vec| - 1;
    assert vec == vec[..n] + [vec[n]];
    assert vec[n] !in vec[..n];
    if vec[n].instId < id {
      assert Smaller(vec, id) == Smaller(vec[..n], id) + {vec[n]};
    } else {
      assert Smaller(vec, id) == Smaller(vec[..n], id);
    }
  }

  /** The one transfer server that a user's packets for other zones go to: of the n held, the one that has exactly
      uid mod n smaller ones. */
  lemma ToUsersServer(r: Registry, vec: seq<Transfers.TransferInfo>, zone: int32, f: Frame, packet: bytes)
      returns (e: Transfers.TransferInfo)
    requires Linked(r) && !IsControl(f.cmd) && f.dstZone != zone && Transfers.SortedById(vec) && vec != []
    ensures e in vec && |Smaller(vec, e.instId)| == f.userid % |vec|
    ensures Forwarded(r, vec, zone, f, packet) == [Send(e.fd, packet)]
  {
    OutOfZone(r, vec, zone, f, packet);
    hide Forwarded, Linked, Smaller;
    e := vec[f.userid % |vec|];
    SmallerAt(vec, f.userid % |vec|, e.instId);
  }

  /** The case of a packet for an instance whose id fits the combined key. */
  lemma ToInstance(r: Registry, vec: seq<Transfers.TransferInfo>, zone: int32, f: Frame, packet: bytes)
    requires Linked(r) && !IsControl(f.cmd) && f.dstZone == zone && InRange(f.dstSvrType, Int32(f.dstInstId))
    ensures Fd(r, f.dstSvrType, f.dstInstId) == 0 ==> Forwarded(r, vec, zone, f, packet) == []
    ensures Fd(r, f.dstSvrType, f.dstInstId) != 0 ==>
              Forwarded(r, vec, zone, f, packet) == [Send(Fd(r, f.dstSvrType, f.dstInstId), packet)]
  {
    assert Int32(f.dstInstId) == f.dstInstId;
    hide Fd, Linked;
  }

  /** The sends are of the packet, to exactly the connections that the instances have, and to each of them as often as
      there are instances that have it. */
  ghost predicate SentExactly(r: Registry, t: uint32, ids: seq<int32>, packet: bytes, sends: seq<Send>) {
    && |sends| <= |ids|
    && (forall s :: s in sends <==>
          s.packet == packet && s.fd != 0 && exists i :: 0 <= i < |ids| && Fd(r, t, ids[i]) == s.fd)
    && forall fd: int64 :: fd != 0 ==> multiset(sends)[Send(fd, packet)] == |Having(r, t, ids, fd)|
  }

  lemma SendAllExactly(r: Registry, t: uint32, ids: seq<int32>, packet: bytes)
    ensures SentExactly(r, t, ids, packet, SendAll(r, t, ids, packet))
  {
    hide Fd, SendAll;
    SendAllLength(r, t, ids, packet);
    forall s ensures s in SendAll(r, t, ids, packet) <==>
                       s.packet == packet && s.fd != 0 && exists i :: 0 <= i < |ids| && Fd(r, t, ids[i]) == s.fd {
      SendAllAre(r, t, ids, packet, s);
    }
    forall fd: int64 | fd != 0
      ensures multiset(SendAll(r, t, ids, packet))[Send(fd, packet)] == |Having(r, t, ids, fd)|
    {
      SentTimes(r, t, ids, packet, fd);
    }
  }

  /** A packet for a type of this zone is sent, unchanged, to the connections of exactly those of the policy's targets
      that have one, once for each target; and to no connection twice if and only if the connected targets have
      different connections. */
  lemma ToType(r: Registry, vec: seq<Transfers.TransferInfo>, zone: int32, f: Frame, packet: bytes)
    requires Linked(r) && !IsControl(f.cmd) && f.dstZone == zone && f.dstInstId == 0
    ensures var ids, sends := Targets(r, f.userid, f.dstSvrType, f.isBroadcast != 0), Forwarded(r, vec, zone, f, packet);
            SentExactly(r, f.dstSvrType, ids, packet, sends) && (Distinct(sends) <==> Apart(r, f.dstSvrType, ids))
  {
    hide *;
    ForwardedIs(r, vec, zone, f, packet);
    SendAllExactly(r, f.dstSvrType, Targets(r, f.userid, f.dstSvrType, f.isBroadcast != 0), packet);
    SentOnceExactly(r, f.dstSvrType, Targets(r, f.userid, f.dstSvrType, f.isBroadcast != 0), packet);
  }

  lemma ForwardedIs(r: Registry, vec: seq<Transfers.TransferInfo>, zone: int32, f: Frame, packet: bytes)
    requires Linked(r)
    ensures Forwarded(r, vec, zone, f, packet)
         == if IsControl(f.cmd) then []
            else if f.dstZone != zone then SendAway(vec, f.userid, packet)
            else if f.dstInstId != 0 then SendOne(r, f.dstSvrType, Int32(f.dstInstId), packet)
            else SendAll(r, f.dstSvrType, Targets(r, f.userid, f.dstSvrType, f.isBroadcast != 0), packet)
  {
    hide Linked, SendAway, SendOne, SendAll, Targets;
  }

  /** The targets of a packet are different instances, so they have different connections. */
  lemma TargetsApart(r: Registry, uid: nat, t: uint32, broadcast: bool)
    requires Inv(r) && Linked(r) && InstanceRuns.DistinctFds(r) && t < 0x20_0000
    ensures Apart(r, t, Targets(r, uid, t, broadcast))
  {
    hide *;
    InstanceRuns.TargetsOfGroup(r, t, uid, broadcast);
    var g, ids := CalcTypeId(t, 0), Targets(r, uid, t, broadcast);
    if g in r.groups {
      var all := Sorted(r.groups[g].instSet);
      SortedIs(r.groups[g].instSet);
      ChosenFrom(all, r.groups[g].policy, uid, broadcast);
      forall i, j | 0 <= i < j < |ids| ensures Fd(r, t, ids[i]) != 0 ==> Fd(r, t, ids[i]) != Fd(r, t, ids[j]) {
        assert ids[i] in ids && ids[j] in ids;
        IncreasingAt(ids, i, j);
        MembersApart(r, t, ids[i], ids[j]);
      }
    }
    ApartIs(r, t, ids);
  }

  lemma ApartIs(r: Registry, t: uint32, ids: seq<int32>)
    requires forall i, j :: 0 <= i < j < |ids| ==> (Fd(r, t, ids[i]) != 0 ==> Fd(r, t, ids[i]) != Fd(r, t, ids[j]))
    ensures Apart(r, t, ids)
  {
    hide Fd;
  }

  lemma IncreasingAt(s: seq<int32>, i: nat, j: nat)
    requires Increasing(s) && i < j < |s|
    ensures s[i] < s[j]
  {
  }

  lemma ChosenFrom(all: seq<int32>, policy: uint32, uid: nat, broadcast: bool)
    requires Increasing(all)
    ensures var ids := Choose(all, policy, uid, broadcast);
            Increasing(ids) && forall id :: id in ids ==> id in all
  {
  }

  lemma MembersApart(r: Registry, t: uint32, i: int32, j: int32)
    requires Inv(r) && InstanceRuns.DistinctFds(r) && t < 0x20_0000 && CalcTypeId(t, 0) in r.groups
    requires i in r.groups[CalcTypeId(t, 0)].instSet && j in r.groups[CalcTypeId(t, 0)].instSet && i != j
    ensures Fd(r, t, i) != 0 ==> Fd(r, t, i) != Fd(r, t, j)
  {
    hide *;
    CalcTypeIdInjective(t, 0);
    MemberKey(r, CalcTypeId(t, 0), i);
    MemberKey(r, CalcTypeId(t, 0), j);
    CalcTypeIdInjective(t, i);
    CalcTypeIdInjective(t, j);
    DistinctAt(r, CalcTypeId(t, i), CalcTypeId(t, j));
    FdAt(r, t, i);
    FdAt(r, t, j);
  }

  lemma MemberKey(r: Registry, g: int32, i: int32)
    requires Inv(r) && g in r.groups && i in r.groups[g].instSet
    ensures 1 <= i <= 1023
  {
    hide EntryOk, Linked;
    assert GroupOk(r, g);
  }

  lemma DistinctAt(r: Registry, j: int32, k: int32)
    requires InstanceRuns.DistinctFds(r) && j != k
    ensures j in r.entries && k in r.entries && r.entries[j].fd != 0 ==> r.entries[j].fd != r.entries[k].fd
  {
  }

  lemma FdAt(r: Registry, t: uint32, i: int32)
    ensures var k := CalcTypeId(t, i); Fd(r, t, i) == if k in r.entries then r.entries[k].fd else 0
  {
    hide CalcTypeId;
  }

  // ----- packets over whole runs -----

  /** After any run that logs out no connection while several entries hold it, a packet for an instance goes to connection
      `fd` exactly when the instance's last accepted login used `fd` and `fd` has not been logged out since. */
  lemma DeliveredToLastLogin(states: seq<Registry>, es: seq<InstanceRuns.Event>, n: nat, vec: seq<Transfers.TransferInfo>,
                             zone: int32, f: Frame, packet: bytes, fd: int64)
    requires InstanceRuns.Run(states, es) && InstanceRuns.Fits(states, es) && n <= |es| && fd != 0
    requires InstanceRuns.SoleLogouts(states, es, n)
    requires !IsControl(f.cmd) && f.dstZone == zone && InRange(f.dstSvrType, Int32(f.dstInstId))
    ensures Linked(states[n])
    ensures Forwarded(states[n], vec, zone, f, packet) == [Send(fd, packet)]
       <==> InstanceRuns.Live(states, es, n, f.dstSvrType, Int32(f.dstInstId), fd)
  {
    hide *;
    InstanceRuns.RunLength(states, es);
    InstanceRuns.InvOverRuns(states, es, n);
    InvLinked(states[n]);
    InstanceRuns.ConnectionIsLastLogin(states, es, n, f.dstSvrType, Int32(f.dstInstId), fd);
    ToInstance(states[n], vec, zone, f, packet);
    SameId(f);
  }

  lemma SameId(f: Frame)
    requires InRange(f.dstSvrType, Int32(f.dstInstId))
    ensures Int32(f.dstInstId) == f.dstInstId
  {
  }

  /** After any such run a packet for a type goes, unchanged, to the connections of exactly those targets
      of the policy in force whose last login still stands. */
  lemma DeliveredToTargets(states: seq<Registry>, es: seq<InstanceRuns.Event>, n: nat, vec: seq<Transfers.TransferInfo>,
                           zone: int32, f: Frame, packet: bytes, fd: int64)
    requires InstanceRuns.Run(states, es) && InstanceRuns.Fits(states, es) && n <= |es| && fd != 0
    requires InstanceRuns.SoleLogouts(states, es, n) && f.dstSvrType < 0x20_0000
    requires !IsControl(f.cmd) && f.dstZone == zone && f.dstInstId == 0
    ensures Linked(states[n])
    ensures var ids := Targets(states[n], f.userid, f.dstSvrType, f.isBroadcast != 0);
            Send(fd, packet) in Forwarded(states[n], vec, zone, f, packet)
            <==> exists i :: 0 <= i < |ids| && InstanceRuns.Live(states, es, n, f.dstSvrType, ids[i], fd)
  {
    hide *;
    InstanceRuns.RunLength(states, es);
    InstanceRuns.InvOverRuns(states, es, n);
    var r, t := states[n], f.dstSvrType;
    InvLinked(r);
    var ids := Targets(r, f.userid, t, f.isBroadcast != 0);
    ToType(r, vec, zone, f, packet);
    SentOne(r, t, ids, packet, Forwarded(r, vec, zone, f, packet), fd);
    forall i | 0 <= i < |ids| ensures Fd(r, t, ids[i]) == fd <==> InstanceRuns.Live(states, es, n, t, ids[i], fd) {
      TargetsInRange(r, f.userid, t, f.isBroadcast != 0, i);
      InstanceRuns.ConnectionIsLastLogin(states, es, n, t, ids[i], fd);
    }
  }

  /** After any run in which connections are only logged in while no other instance holds them, no connection is sent
      a packet for a type twice. */
  lemma DeliveredOnce(states: seq<Registry>, es: seq<InstanceRuns.Event>, n: nat, vec: seq<Transfers.TransferInfo>,
                      zone: int32, f: Frame, packet: bytes)
    requires InstanceRuns.Run(states, es) && InstanceRuns.Fits(states, es) && InstanceRuns.Exclusive(states, es)
    requires n <= |es| && f.dstSvrType < 0x20_0000
    requires !IsControl(f.cmd) && f.dstZone == zone && f.dstInstId == 0
    ensures Linked(states[n]) && Distinct(Forwarded(states[n], vec, zone, f, packet))
  {
    hide *;
    InstanceRuns.RunLength(states, es);
    InstanceRuns.InvOverRuns(states, es, n);
    InstanceRuns.DistinctOverRuns(states, es, n);
    InvLinked(states[n]);
    TargetsApart(states[n], f.userid, f.dstSvrType, f.isBroadcast != 0);
    ToType(states[n], vec, zone, f, packet);
  }

  /** After any such run a packet for a type that is to be broadcast, by its header or by the policy captured for the type,
      goes to the connections of exactly those instances of the type whose last login still stands. */
  lemma BroadcastReaches(states: seq<Registry>, es: seq<InstanceRuns.Event>, n: nat, p: nat, vec: seq<Transfers.TransferInfo>,
                         zone: int32, f: Frame, packet: bytes, fd: int64)
    requires InstanceRuns.Run(states, es) && InstanceRuns.Fits(states, es) && n <= |es| && fd != 0
    requires InstanceRuns.SoleLogouts(states, es, n) && f.dstSvrType < 0x20_0000
    requires InstanceRuns.FirstLogin(states, es, p, f.dstSvrType) && p < n
    requires f.isBroadcast != 0 || GetPolicy(states[p].config, f.dstSvrType).value.policy == 3
    requires !IsControl(f.cmd) && f.dstZone == zone && f.dstInstId == 0
    ensures Linked(states[n])
    ensures Send(fd, packet) in Forwarded(states[n], vec, zone, f, packet)
       <==> exists i :: InstanceRuns.Live(states, es, n, f.dstSvrType, i, fd)
  {
    InstanceRuns.SeenAfterFirst(states, es, n, p, f.dstSvrType);
    hide *;
    InstanceRuns.RunLength(states, es);
    InstanceRuns.InvOverRuns(states, es, n);
    InvLinked(states[n]);
    var t, broadcast := f.dstSvrType, f.isBroadcast != 0;
    var ids := Targets(states[n], f.userid, t, broadcast);
    DeliveredToTargets(states, es, n, vec, zone, f, packet, fd);
    InstanceRuns.PolicyIsCaptured(states, es, n, p, t);
    InstanceRuns.TargetsExactly(states[n], t, f.userid, broadcast);
    if i :| InstanceRuns.Live(states, es, n, t, i, fd) {
      InstanceRuns.LiveIsRegistered(states, es, n, t, i, fd);
      InstanceRuns.GroupIsHistory(states, es, n, t, i);
      assert i in ids;
    }
  }

  /** A user's packets for other zones go to the same transfer server after any two histories that reload the same lines
      and leave the same triples stray, whoever has logged in since. */
  lemma SameServerOverRuns(es: seq<Transfers.Event>, fs: seq<Transfers.Event>,
                           items: seq<Transfers.Item>, others: seq<Transfers.Item>,
                           logins: seq<Transfers.Event>, moreLogins: seq<Transfers.Event>,
                           r: Registry, zone: int32, f: Frame, packet: bytes)
    requires Transfers.UniqueIds(items, zone) && multiset(items) == multiset(others)
    requires forall i :: 0 <= i < |logins| ==> logins[i].LoginTransfer?
    requires forall i :: 0 <= i < |moreLogins| ==> moreLogins[i].LoginTransfer?
    requires Transfers.SameStrays(Transfers.After(es, zone), Transfers.After(fs, zone), items, zone)
    requires Linked(r) && !IsControl(f.cmd) && f.dstZone != zone
    ensures var a := Transfers.After(es + [Transfers.Reload(items)] + logins, zone);
            var b := Transfers.After(fs + [Transfers.Reload(others)] + moreLogins, zone);
            if a == [] then b == [] && Forwarded(r, a, zone, f, packet) == [] == Forwarded(r, b, zone, f, packet)
            else
              exists d, e :: d in a && e in b && Transfers.TripleOf(d) == Transfers.TripleOf(e)
                             && |Smaller(a, d.instId)| == f.userid % |a|
                             && Forwarded(r, a, zone, f, packet) == [Send(d.fd, packet)]
                             && Forwarded(r, b, zone, f, packet) == [Send(e.fd, packet)]
  {
    hide *;
    var run, other := es + [Transfers.Reload(items)] + logins, fs + [Transfers.Reload(others)] + moreLogins;
    var a, b := Transfers.After(run, zone), Transfers.After(other, zone);
    Transfers.PlacesDependOnConfiguration(es, fs, items, others, logins, moreLogins, zone);
    Transfers.SortedOverRuns(run, zone);
    SamePlace(a, b, f.userid);
    OutOfZone(r, a, zone, f, packet);
    OutOfZone(r, b, zone, f, packet);
    if a != [] {
      var k := f.userid % |a|;
      PlaceHas(a, k);
      assert a[k] in a && b[k] in b;
    }
  }

  lemma SamePlace(a: seq<Transfers.TransferInfo>, b: seq<Transfers.TransferInfo>, uid: nat)
    requires Transfers.Triples(a) == Transfers.Triples(b)
    ensures |a| == |b|
    ensures a != [] ==> Transfers.TripleOf(a[uid % |a|]) == Transfers.TripleOf(b[uid % |a|])
  {
    assert |Transfers.Triples(a)| == |a| && |Transfers.Triples(b)| == |b|;
    if a != [] {
      assert Transfers.Triples(a)[uid % |a|] == Transfers.Triples(b)[uid % |a|];
    }
  }

  lemma PlaceHas(vec: seq<Transfers.TransferInfo>, k: nat)
    requires Transfers.SortedById(vec) && k < |vec|
    ensures |Smaller(vec, vec[k].instId)| == k
  {
    SmallerAt(vec, k, vec[k].instId);
  }

  lemma SentOne(r: Registry, t: uint32, ids: seq<int32>, packet: bytes, sends: seq<Send>, fd: int64)
    requires SentExactly(r, t, ids, packet, sends) && fd != 0
    ensures Send(fd, packet) in sends <==> exists i :: 0 <= i < |ids| && Fd(r, t, ids[i]) == fd
  {
    hide Fd, Having;
  }

  lemma TargetsInRange(r: Registry, uid: nat, t: uint32, broadcast: bool, i: nat)
    requires Inv(r) && Linked(r) && t < 0x20_0000 && i < |Targets(r, uid, t, broadcast)|
    ensures InRange(t, Targets(r, uid, t, broadcast)[i])
  {
    hide *;
    InstanceRuns.TargetsOfGroup(r, t, uid, broadcast);
    var g, ids := CalcTypeId(t, 0), Targets(r, uid, t, broadcast);
    SortedIs(r.groups[g].instSet);
    ChosenFrom(Sorted(r.groups[g].instSet), r.groups[g].policy, uid, broadcast);
    assert ids[i] in ids;
    MemberKey(r, g, ids[i]);
    InstanceRuns.RangeIs(t, ids[i]);
  }

  // ----- the application -----

  class RouterApplication {
    const serverZone: int32
    const instances: SeverInstanceMgr
    const transfers: TransferMgr
    /** Everything sent so far. */
    ghost var sent: seq<Send>

    constructor (serverZone: int32, instances: SeverInstanceMgr, transfers: TransferMgr)
      ensures this.serverZone == serverZone && this.instances == instances && this.transfers == transfers && sent == []
    {
      this.serverZone, this.instances, this.transfers := serverZone, instances, transfers;
      sent := [];
    }

    /** A packet lies in a buffer, its header right before its payload; control packets are left to transactions. */
    method OnProc(f: Frame, buffer: bytes, data: nat, dataLen: nat) returns (ret: int)
      requires instances.Valid() && FRAME_SIZE <= data && data + dataLen <= |buffer|
      modifies this`sent
      ensures ret == 0 && Linked(instances.Contents())
      ensures sent == old(sent) + Forwarded(instances.Contents(), transfers.transferInfoVec, serverZone, f,
                                            buffer[data - FRAME_SIZE..data + dataLen])
    {
      hide SeverInstanceMgr.Valid, SeverInstanceMgr.Contents, Linked, Targets, SendOne, SendAll, SendAway;
      instances.IsLinked();
      if IsControl(f.cmd) {
        return 0;
      }
      if f.dstZone == serverZone {
        if f.dstInstId != 0 {
          ForwardPkg(f.dstSvrType, Int32(f.dstInstId), buffer, data, dataLen);
        } else {
          ForwardToTargets(f, buffer, data, dataLen);
        }
      } else {
        var _ := ForwarPkgToTransfer(f, buffer, data, dataLen);
      }
      instances.Undisturbed();
      ret := 0;
    }

    method ForwardToTargets(f: Frame, buffer: bytes, data: nat, dataLen: nat)
      requires instances.Valid() && FRAME_SIZE <= data && data + dataLen <= |buffer|
      modifies this`sent
      ensures Linked(instances.Contents())
      ensures var ids := Targets(instances.Contents(), f.userid, f.dstSvrType, f.isBroadcast != 0);
              sent == old(sent) + SendAll(instances.Contents(), f.dstSvrType, ids, buffer[data - FRAME_SIZE..data + dataLen])
    {
      hide SeverInstanceMgr.Valid, SeverInstanceMgr.Contents, Linked, Targets, SendOne;
      ghost var packet := buffer[data - FRAME_SIZE..data + dataLen];
      var instVec := instances.RouterPolicy(f.userid, f.dstSvrType, f.isBroadcast != 0, []);
      instances.Undisturbed();
      for i := 0 to |instVec|
        invariant instances.Valid() && instances.Contents() == old(instances.Contents())
        invariant sent == old(sent) + SendAll(instances.Contents(), f.dstSvrType, instVec[..i], packet)
      {
        ForwardPkg(f.dstSvrType, instVec[i], buffer, data, dataLen);
        instances.Undisturbed();
        assert instVec[..i + 1][..i] == instVec[..i];
      }
      assert instVec[..|instVec|] == instVec;
    }

    method ForwardPkg(dstSvrType: uint32, dstInstId: int32, buffer: bytes, data: nat, dataLen: nat)
      requires instances.Valid() && FRAME_SIZE <= data && data + dataLen <= |buffer|
      modifies this`sent
      ensures sent == old(sent) + SendOne(instances.Contents(), dstSvrType, dstInstId,
                                          buffer[data - FRAME_SIZE..data + dataLen])
    {
      hide SeverInstanceMgr.Valid, SeverInstanceMgr.Contents, Fd;
      var src, srcLen := data - FRAME_SIZE, dataLen + FRAME_SIZE;
      var fd := instances.GetFdByTypeId(dstSvrType, dstInstId);
      instances.Undisturbed();
      if fd != 0 {
        sent := sent + [Send(fd, buffer[src..src + srcLen])];
      }
      instances.Undisturbed();
    }

    method ForwarPkgToTransfer(f: Frame, buffer: bytes, data: nat, dataLen: nat) returns (ret: int)
      requires FRAME_SIZE <= data && data + dataLen <= |buffer|
      modifies this`sent
      ensures ret == if transfers.transferInfoVec == [] then -1 else 0
      ensures sent == old(sent) + SendAway(transfers.transferInfoVec, f.userid, buffer[data - FRAME_SIZE..data + dataLen])
      ensures var vec := transfers.transferInfoVec;
              sent == old(sent) + if vec == [] then []
                                  else [Send(vec[f.userid % |vec|].fd, buffer[data - FRAME_SIZE..data + dataLen])]
    {
      var code, instVec := transfers.GetTransferInstId(f.userid);
      if instVec == [] {
        return -1;
      }
      var src, srcLen := data - FRAME_SIZE, dataLen + FRAME_SIZE;
      for i := 0 to |instVec|
        invariant sent == old(sent) + seq(i, j requires 0 <= j < i => Send(instVec[j], buffer[src..src + srcLen]))
      {
        sent := sent + [Send(instVec[i], buffer[src..src + srcLen])];
      }
      ret := 0;
    }
  }
}
