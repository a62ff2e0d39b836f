/** The connections to the transfer servers as the router keeps them. */
module TransferMgrs {
  import opened Options
  import opened Integers
  import opened Ordered
  import opened Transfers

  class TransferMgr {
    var transferFile: string
    var selfServerType: int32
    var selfInstanceId: int32
    var selfServerZone: int32
    var transferInfoVec: seq<TransferInfo>
    /** The connections opened and closed so far. */
    ghost var log: seq<Effect>

    ghost predicate Valid()
      reads this
    {
      SortedById(transferInfoVec)
    }

    constructor ()
      ensures Valid() && transferInfoVec == [] && log == [] && transferFile == ""
      ensures selfServerType == 0 && selfInstanceId == 0 && selfServerZone == 0
    {
      selfServerType, selfInstanceId, selfServerZone := 0, 0, 0;
      transferFile, transferInfoVec, log := "", [], [];
    }

    /** `parsed` is what reading the file yields, None if that fails. */
    method Init(selfSvrType: int32, selfInstId: int32, selfServerZone: int32, transferFile: string,
                parsed: Option<seq<Item>>)
      returns (ret: int)
      requires Valid()
      modifies this
      ensures Valid() && selfServerType == selfSvrType && selfInstanceId == selfInstId
      ensures this.selfServerZone == selfServerZone && this.transferFile == transferFile
      ensures ret == 0 <==>
                transferFile == "" || (parsed.Some? && UniqueIds(parsed.value, selfServerZone))
      ensures ret == 0 && transferFile != "" ==>
                transferInfoVec == Reconciled(old(transferInfoVec), parsed.value, selfServerZone)
      ensures ret != 0 || transferFile == "" ==> transferInfoVec == old(transferInfoVec) && log == old(log)
    {
      selfServerType, selfInstanceId := selfSvrType, selfInstId;
      this.selfServerZone, this.transferFile := selfServerZone, transferFile;
      ret := Reload(parsed);
    }

    method Reload(parsed: Option<seq<Item>>) returns (ret: int)
      requires Valid()
      modifies this`transferInfoVec, this`log
      ensures Valid()
      ensures var accepted := parsed.Some? && UniqueIds(parsed.value, selfServerZone);
              ret == if transferFile == "" || accepted then 0 else -1
      ensures transferFile != "" && parsed.Some? ==>
                (ret == -1 <==> exists i, j :: 0 <= i < j < |parsed.value| && parsed.value[i].zone == selfServerZone
                                               && parsed.value[j].zone == selfServerZone
                                               && parsed.value[i].instId == parsed.value[j].instId)
      ensures ret == -1 || transferFile == "" ==> transferInfoVec == old(transferInfoVec) && log == old(log)
      ensures ret == 0 && transferFile != "" ==>
                transferInfoVec == Reconciled(old(transferInfoVec), parsed.value, selfServerZone)
      ensures ret == 0 && transferFile != "" ==>
                log == old(log) + Connects(parsed.value, old(transferInfoVec), selfServerZone)
                       + Closes(old(transferInfoVec), parsed.value)
    {
      hide Reconciled, Connects, Closes;
      if transferFile == "" {
        return 0;
      }
      if parsed.None? {
        return -1;
      }
      var items := parsed.value;
      var instIdSet: set<int32> := {};
      for i := 0 to |items|
        invariant forall j, k :: 0 <= j < k < i && items[j].zone == selfServerZone && items[k].zone == selfServerZone ==>
                    items[j].instId != items[k].instId
        invariant forall id :: id in instIdSet <==>
                    exists j :: 0 <= j < i && items[j].zone == selfServerZone && items[j].instId == id
      {
        if items[i].zone != selfServerZone {
          continue;
        }
        if items[i].instId in instIdSet {
          return -1;
        }
        instIdSet := instIdSet + {items[i].instId};
      }
      ConnectTransfers(items);
      ret := 0;
    }

    method ExistTransfer(ip: string, port: uint32, instId: int32) returns (exist: bool)
      ensures exist <==> Has(transferInfoVec, Triple(ip, port, instId))
      ensures exist <==> exists i :: 0 <= i < |transferInfoVec| && transferInfoVec[i].ip == ip
                                     && transferInfoVec[i].port == port && transferInfoVec[i].instId == instId
    {
      for i := 0 to |transferInfoVec|
        invariant forall j :: 0 <= j < i ==> TripleOf(transferInfoVec[j]) != Triple(ip, port, instId)
      {
        var info := transferInfoVec[i];
        if ip == info.ip && port == info.port && instId == info.instId {
          assert TripleOf(transferInfoVec[i]) == Triple(ip, port, instId);
          return true;
        }
      }
      exist := false;
    }

    /** Opens what is new, closes what is no longer configured, and keeps the rest, sorted by id. */
    method ConnectTransfers(items: seq<Item>)
      requires Valid()
      modifies this`transferInfoVec, this`log
      ensures Valid() && transferInfoVec == Reconciled(old(transferInfoVec), items, selfServerZone)
      ensures log == old(log) + Connects(items, old(transferInfoVec), selfServerZone) + Closes(old(transferInfoVec), items)
    {
      hide SortedById, Values, Has, Configured;
      ReconciledAre(transferInfoVec, items, selfServerZone);
      var m := OpenNew(items);
      m := CloseDropped(items, m);
      transferInfoVec := InOrder(m);
    }

    method OpenNew(items: seq<Item>) returns (m: map<int32, TransferInfo>)
      modifies this`log
      ensures m == NewMap(items, transferInfoVec, selfServerZone)
      ensures log == old(log) + Connects(items, transferInfoVec, selfServerZone)
    {
      m := map[];
      for i := 0 to |items|
        invariant m == NewMap(items[..i], transferInfoVec, selfServerZone)
        invariant log == old(log) + Connects(items[..i], transferInfoVec, selfServerZone)
      {
        var item := items[i];
        assert items[..i + 1][..i] == items[..i];
        if item.zone != selfServerZone {
          continue;
        }
        var exist := ExistTransfer(item.ip, item.port % TWO_32, item.instId);
        if !exist {
          log := log + [ConnectOne(item.ip, item.port, item.instId)];
          m := m[item.instId := TransferInfo(item.ip, item.port % 0x1_0000, item.instId, 0)];
        }
      }
      assert items[..|items|] == items;
    }

    method CloseDropped(items: seq<Item>, start: map<int32, TransferInfo>) returns (m: map<int32, TransferInfo>)
      modifies this`log
      ensures m == KeptMap(transferInfoVec, items, start)
      ensures log == old(log) + Closes(transferInfoVec, items)
    {
      m := start;
      for i := 0 to |transferInfoVec|
        invariant m == KeptMap(transferInfoVec[..i], items, start)
        invariant log == old(log) + Closes(transferInfoVec[..i], items)
      {
        var info := transferInfoVec[i];
        assert transferInfoVec[..i + 1][..i] == transferInfoVec[..i];
        var exist := IsConfigured(items, info);
        if exist {
          m := m[info.instId := info];
        } else {
          log := log + [CloseFd(info.fd)];
        }
      }
      assert transferInfoVec[..|transferInfoVec|] == transferInfoVec;
    }

    static method IsConfigured(items: seq<Item>, info: TransferInfo) returns (exist: bool)
      ensures exist <==> Configured(items, TripleOf(info))
      ensures exist <==> exists i :: 0 <= i < |items| && items[i].ip == info.ip && items[i].port == info.port
                                     && items[i].instId == info.instId
    {
      exist := false;
      for i := 0 to |items|
        invariant !exist && forall j :: 0 <= j < i ==> TripleOfItem(items[j]) != TripleOf(info)
      {
        var item := items[i];
        if info.ip == item.ip && info.port == item.port && info.instId == item.instId {
          assert TripleOfItem(items[i]) == TripleOf(info);
          exist := true;
          break;
        }
      }
    }

    /** The values of a map, visited by increasing key. */
    static method InOrder(m: map<int32, TransferInfo>) returns (vec: seq<TransferInfo>)
      ensures vec == Values(m)
    {
      hide Sorted;
      vec := [];
      var rest := m.Keys;
      ghost var keys: seq<int32> := [];
      while rest != {}
        invariant rest <= m.Keys && keys + Sorted(rest) == Sorted(m.Keys)
        invariant (forall k :: k in keys ==> k in m) && vec == At(m, keys)
        decreases |rest|
      {
        LeastExists(rest);
        var id :| id in rest && forall other :: other in rest ==> id <= other;
        SortedFrom(rest, id);
        AtNext(m, keys, id);
        assert keys + Sorted(rest) == keys + [id] + Sorted(rest - {id});
        vec, keys, rest := vec + [m[id]], keys + [id], rest - {id};
      }
      SortedFrom(rest, 0);
    }

    method LoginTransfer(ip: string, port: uint32, instId: int32, fd: int64) returns (ret: int)
      requires Valid()
      modifies this`transferInfoVec
      ensures Valid() && transferInfoVec == LoggedIn(old(transferInfoVec), Triple(ip, port, instId), fd)
      ensures ret == if Has(old(transferInfoVec), Triple(ip, port, instId)) then 0 else -1
      ensures |transferInfoVec| == |old(transferInfoVec)|
      ensures forall i :: 0 <= i < |transferInfoVec| ==>
                var e := old(transferInfoVec)[i];
                transferInfoVec[i] == if e.ip == ip && e.port == port && e.instId == instId then e.(fd := fd) else e
    {
      hide SortedById, LoggedIn;
      ghost var t := Triple(ip, port, instId);
      LoginIsLocal(transferInfoVec, t, fd);
      for i := 0 to |transferInfoVec|
        invariant transferInfoVec == old(transferInfoVec)
        invariant forall j :: 0 <= j < i ==> TripleOf(transferInfoVec[j]) != t
      {
        var info := transferInfoVec[i];
        if ip == info.ip && port == info.port && instId == info.instId {
          LoginAt(transferInfoVec, t, fd, i);
          transferInfoVec := transferInfoVec[i := info.(fd := fd)];
          return 0;
        }
      }
      NoLogin(transferInfoVec, t, fd);
      ret := -1;
    }

    /** The connection for a user, by the place of the user among the entries; none if there are no entries. */
    method GetTransferInstId(userid: nat) returns (ret: int, instVec: seq<int64>)
      ensures ret == if transferInfoVec == [] then -1 else 0
      ensures instVec == if transferInfoVec == [] then [] else [transferInfoVec[userid % |transferInfoVec|].fd]
    {
      if transferInfoVec == [] {
        return -1, [];
      }
      var r := userid % |transferInfoVec|;
      return 0, [transferInfoVec[r].fd];
    }
  }

  lemma SortedFrom(rest: set<int32>, id: int32)
    ensures rest == {} ==> Sorted(rest) == []
    ensures IsLeast(rest, id) ==> Sorted(rest) == [id] + Sorted(rest - {id})
  {
    if IsLeast(rest, id) {
      assert id == Least(rest);
    }
  }

  lemma AtNext(m: map<int32, TransferInfo>, keys: seq<int32>, id: int32)
    requires id in m && forall k :: k in keys ==> k in m
    ensures (forall k :: k in keys + [id] ==> k in m) && At(m, keys + [id]) == At(m, keys) + [m[id]]
  {
    assert (keys + [id])[..|keys|] == keys;
  }

  lemma {:induction false} LoginAt(vec: seq<TransferInfo>, t: Triple, fd: int64, i: nat)
    requires i < |vec| && TripleOf(vec[i]) == t && forall j :: 0 <= j < i ==> TripleOf(vec[j]) != t
    ensures LoggedIn(vec, t, fd) == vec[i := vec[i].(fd := fd)]
    ensures Has(vec, t)
  {
    if i > 0 {
      LoginAt(vec[1..], t, fd, i - 1);
    }
  }

  lemma {:induction false} NoLogin(vec: seq<TransferInfo>, t: Triple, fd: int64)
    requires forall j :: 0 <= j < |vec| ==> TripleOf(vec[j]) != t
    ensures LoggedIn(vec, t, fd) == vec && !Has(vec, t)
  {
    if vec != [] {
      NoLogin(vec[1..], t, fd);
    }
  }
}
