/** The connections to the transfer servers as values: what a reloaded configuration makes of them. */
module Transfers {
  import opened Integers
  import opened Ordered

  datatype TransferInfo = TransferInfo(ip: string, port: uint16, instId: int32, fd: int64)

  /** One line of the configuration. */
  datatype Item = Item(ip: string, port: int32, zone: int32, instId: int32)

  datatype Effect = ConnectOne(ip: string, port: int32, instId: int32) | CloseFd(fd: int64)

  /** What identifies a transfer server. */
  datatype Triple = Triple(ip: string, port: int, instId: int32)

  function TripleOf(info: TransferInfo): Triple { Triple(info.ip, info.port, info.instId) }

  function TripleOfItem(item: Item): Triple { Triple(item.ip, item.port, item.instId) }

  /** Address, port and id tell servers apart, all three of them; a port outside 16 bits is that of no server held. */
  lemma SameServerExactly(info: TransferInfo, other: TransferInfo, item: Item)
    ensures TripleOf(info) == TripleOf(other)
       <==> info.ip == other.ip && info.port == other.port && info.instId == other.instId
    ensures TripleOf(info) == TripleOfItem(item)
       <==> info.ip == item.ip && info.port == item.port && info.instId == item.instId
  {
  }

  predicate Has(vec: seq<TransferInfo>, t: Triple) {
    exists i :: 0 <= i < |vec| && TripleOf(vec[i]) == t
  }

  /** Some line of the configuration, whatever its zone, names the triple. */
  predicate Configured(items: seq<Item>, t: Triple) {
    exists i :: 0 <= i < |items| && TripleOfItem(items[i]) == t
  }

  /** Some line of the configuration in the router's own zone names the triple. */
  predicate Wanted(items: seq<Item>, zone: int32, t: Triple) {
    exists i :: 0 <= i < |items| && items[i].zone == zone && TripleOfItem(items[i]) == t
  }

  /** The ids of the lines in the zone are all different. */
  predicate UniqueIds(items: seq<Item>, zone: int32) {
    forall i, j :: 0 <= i < j < |items| && items[i].zone == zone && items[j].zone == zone ==>
                     items[i].instId != items[j].instId
  }

  predicate SortedById(vec: seq<TransferInfo>) {
    forall i, j :: 0 <= i < j < |vec| ==> vec[i].instId < vec[j].instId
  }

  // ----- reconciliation -----

  /** A line of the zone that no connection held answers to; the port is compared as an unsigned number. */
  predicate IsNew(item: Item, vec: seq<TransferInfo>, zone: int32) {
    item.zone == zone && !Has(vec, Triple(item.ip, item.port % TWO_32, item.instId))
  }

  /** A connection not yet logged in; the port is cut to 16 bits. */
  function Fresh(item: Item): TransferInfo {
    TransferInfo(item.ip, item.port % 0x1_0000, item.instId, 0)
  }

  function NewMap(items: seq<Item>, vec: seq<TransferInfo>, zone: int32): map<int32, TransferInfo> {
    if items == [] then map[]
    else
      var m, item := NewMap(items[..|items| - 1], vec, zone), items[|items| - 1];
      if IsNew(item, vec, zone) then m[item.instId := Fresh(item)] else m
  }

  function KeptMap(vec: seq<TransferInfo>, items: seq<Item>, start: map<int32, TransferInfo>): map<int32, TransferInfo> {
    if vec == [] then start
    else
      var m, info := KeptMap(vec[..|vec| - 1], items, start), vec[|vec| - 1];
      if Configured(items, TripleOf(info)) then m[info.instId := info] else m
  }

  function NextMap(vec: seq<TransferInfo>, items: seq<Item>, zone: int32): map<int32, TransferInfo> {
    KeptMap(vec, items, NewMap(items, vec, zone))
  }

  function At(m: map<int32, TransferInfo>, keys: seq<int32>): (vec: seq<TransferInfo>)
    requires forall k :: k in keys ==> k in m
    ensures |vec| == |keys| && forall i :: 0 <= i < |vec| ==> vec[i] == m[keys[i]]
  {
    if keys == [] then [] else At(m, keys[..|keys| - 1]) + [m[keys[|keys| - 1]]]
  }

  /** The values of a map in the order of its keys. */
  ghost function Values(m: map<int32, TransferInfo>): seq<TransferInfo> {
    SortedIs(m.Keys);
    At(m, Sorted(m.Keys))
  }

  /** The connections held after a reload. */
  ghost function Reconciled(vec: seq<TransferInfo>, items: seq<Item>, zone: int32): seq<TransferInfo> {
    Values(NextMap(vec, items, zone))
  }

  /** The connections a reload opens, in the order of the configuration. */
  function Connects(items: seq<Item>, vec: seq<TransferInfo>, zone: int32): seq<Effect> {
    if items == [] then []
    else
      var item := items[|items| - 1];
      Connects(items[..|items| - 1], vec, zone)
      + if IsNew(item, vec, zone) then [ConnectOne(item.ip, item.port, item.instId)] else []
  }

  /** The connections a reload closes, in the order they are held. */
  function Closes(vec: seq<TransferInfo>, items: seq<Item>): seq<Effect> {
    if vec == [] then []
    else
      var info := vec[|vec| - 1];
      Closes(vec[..|vec| - 1], items) + if Configured(items, TripleOf(info)) then [] else [CloseFd(info.fd)]
  }

  // ----- what the maps hold -----

  lemma {:induction false} NewMapAt(items: seq<Item>, vec: seq<TransferInfo>, zone: int32, id: int32)
    ensures var m := NewMap(items, vec, zone);
            && (id in m ==> exists i :: 0 <= i < |items| && IsNew(items[i], vec, zone) && items[i].instId == id
                                        && m[id] == Fresh(items[i]))
            && (id !in m ==> forall i :: 0 <= i < |items| && IsNew(items[i], vec, zone) ==> items[i].instId != id)
  {
    hide IsNew, Fresh;
    if items != [] {
      var n := |items| - 1;
      NewMapAt(items[..n], vec, zone, id);
      var m := NewMap(items, vec, zone);
      if id in m {
        if IsNew(items[n], vec, zone) && items[n].instId == id {
          assert m[id] == Fresh(items[n]);
        } else {
          var i :| 0 <= i < n && IsNew(items[..n][i], vec, zone) && items[..n][i].instId == id
                   && m[id] == Fresh(items[..n][i]);
          assert items[i] == items[..n][i];
        }
      } else {
        forall i | 0 <= i < |items| && IsNew(items[i], vec, zone) ensures items[i].instId != id {
          assert i < n ==> items[i] == items[..n][i];
        }
      }
    }
  }

  lemma {:induction false} KeptMapAt(vec: seq<TransferInfo>, items: seq<Item>, start: map<int32, TransferInfo>, id: int32)
    requires SortedById(vec)
    ensures var m := KeptMap(vec, items, start);
            && (forall i :: 0 <= i < |vec| && vec[i].instId == id && Configured(items, TripleOf(vec[i])) ==>
                              id in m && m[id] == vec[i])
            && ((forall i :: 0 <= i < |vec| && vec[i].instId == id ==> !Configured(items, TripleOf(vec[i]))) ==>
                  (id in m <==> id in start) && (id in start ==> m[id] == start[id]))
  {
    hide Configured, TripleOf;
    if vec != [] {
      var n := |vec| - 1;
      KeptMapAt(vec[..n], items, start, id);
      var m := KeptMap(vec, items, start);
      forall i | 0 <= i < |vec| && vec[i].instId == id && Configured(items, TripleOf(vec[i]))
        ensures id in m && m[id] == vec[i]
      {
        if i < n {
          assert vec[..n][i] == vec[i];
        }
      }
      if forall i :: 0 <= i < |vec| && vec[i].instId == id ==> !Configured(items, TripleOf(vec[i])) {
        assert forall i :: 0 <= i < n ==> vec[..n][i] == vec[i];
      }
    }
  }

  lemma {:induction false} ValuesAre(m: map<int32, TransferInfo>)
    requires forall k :: k in m ==> m[k].instId == k
    ensures SortedById(Values(m))
    ensures forall e: TransferInfo :: e in Values(m) <==> e.instId in m && m[e.instId] == e
  {
    SortedIs(m.Keys);
    var keys, v := Sorted(m.Keys), Values(m);
    forall i | 0 <= i < |v| ensures v[i].instId == keys[i] && keys[i] in m && m[keys[i]] == v[i] {
      assert keys[i] in keys;
    }
    forall e: TransferInfo | e.instId in m && m[e.instId] == e ensures e in v {
      assert e.instId in keys;
      var i :| 0 <= i < |keys| && keys[i] == e.instId;
      assert v[i] == e;
    }
  }

  lemma SomeMember(v: seq<TransferInfo>)
    requires v != []
    ensures exists e :: e in v
  {
    assert v[0] in v;
  }

  /** Vectors sorted by id with the same entries are equal. */
  lemma {:induction false} SortedByIdUnique(a: seq<TransferInfo>, b: seq<TransferInfo>)
    requires SortedById(a) && SortedById(b) && forall e :: e in a <==> e in b
    ensures a == b
  {
    if a == [] {
      if b != [] {
        SomeMember(b);
        assert false;
      }
    } else {
      assert a[0] in b && b != [];
      assert b[0] in a;
      assert a[0] == b[0];
      forall e ensures e in a[1..] <==> e in b[1..] {
        if e in a[1..] {
          assert e in a && e.instId > a[0].instId;
          assert e in b;
        }
        if e in b[1..] {
          assert e in b && e.instId > b[0].instId;
          assert e in a;
        }
      }
      SortedByIdUnique(a[1..], b[1..]);
    }
  }

  // ----- what a reload leaves -----

  predicate Fits(port: int32) { 0 <= port < 0x1_0000 }

  predicate PortsFit(items: seq<Item>, zone: int32) {
    forall i :: 0 <= i < |items| && items[i].zone == zone ==> Fits(items[i].port)
  }

  /** The configured ports fit 16 bits, and no line outside the zone names a connection held that the zone's own
      lines do not name. */
  predicate Clean(vec: seq<TransferInfo>, items: seq<Item>, zone: int32) {
    && PortsFit(items, zone)
    && (forall i :: 0 <= i < |vec| && Configured(items, TripleOf(vec[i])) ==> Wanted(items, zone, TripleOf(vec[i])))
  }

  /** The connections left are exactly those the zone's lines name. */
  ghost predicate LeavesConfigured(vec: seq<TransferInfo>, items: seq<Item>, zone: int32) {
    forall t :: Has(Reconciled(vec, items, zone), t) <==> Wanted(items, zone, t)
  }

  /** An entry that was held and is configured, or a new one. */
  predicate Survivor(vec: seq<TransferInfo>, items: seq<Item>, e: TransferInfo) {
    e in vec && Configured(items, TripleOf(e))
  }

  lemma NextMapAt(vec: seq<TransferInfo>, items: seq<Item>, zone: int32, id: int32)
    requires SortedById(vec)
    ensures var m := NextMap(vec, items, zone);
            id in m ==>
              m[id].instId == id
              && (Survivor(vec, items, m[id])
                  || exists i :: 0 <= i < |items| && IsNew(items[i], vec, zone) && m[id] == Fresh(items[i]))
  {
    var start, m := NewMap(items, vec, zone), NextMap(vec, items, zone);
    KeptMapAt(vec, items, start, id);
    NewMapAt(items, vec, zone, id);
    hide IsNew, Configured, KeptMap, NewMap;
    if id in m {
      if i :| 0 <= i < |vec| && vec[i].instId == id && Configured(items, TripleOf(vec[i])) {
        assert m[id] == vec[i] && vec[i] in vec;
      }
    }
  }

  /** A held entry that is configured is kept as it is. */
  lemma SurvivorKept(vec: seq<TransferInfo>, items: seq<Item>, zone: int32, e: TransferInfo)
    requires SortedById(vec) && Survivor(vec, items, e)
    ensures e.instId in NextMap(vec, items, zone) && NextMap(vec, items, zone)[e.instId] == e
  {
    KeptMapAt(vec, items, NewMap(items, vec, zone), e.instId);
    var i :| 0 <= i < |vec| && vec[i] == e;
  }

  /** A new line whose id no held entry that stays has, is in. */
  lemma NewAdded(vec: seq<TransferInfo>, items: seq<Item>, zone: int32, i: nat)
    requires SortedById(vec) && UniqueIds(items, zone) && i < |items| && IsNew(items[i], vec, zone)
    requires forall e :: Survivor(vec, items, e) ==> e.instId != items[i].instId
    ensures var m := NextMap(vec, items, zone); items[i].instId in m && m[items[i].instId] == Fresh(items[i])
  {
    var id := items[i].instId;
    KeptMapAt(vec, items, NewMap(items, vec, zone), id);
    NewMapAt(items, vec, zone, id);
    hide Configured, NewMap, KeptMap, Has;
    forall j | 0 <= j < |vec| && vec[j].instId == id ensures !Configured(items, TripleOf(vec[j])) {
      assert Survivor(vec, items, vec[j]) || !Configured(items, TripleOf(vec[j]));
    }
    var j :| 0 <= j < |items| && IsNew(items[j], vec, zone) && items[j].instId == id
             && NewMap(items, vec, zone)[id] == Fresh(items[j]);
    assert j == i;
  }

  /** The connections left, as a set: the survivors, and the new lines whose id no survivor has. */
  lemma ReconciledAre(vec: seq<TransferInfo>, items: seq<Item>, zone: int32)
    requires SortedById(vec)
    ensures SortedById(Reconciled(vec, items, zone))
    ensures forall e: TransferInfo ::
              e in Reconciled(vec, items, zone) <==>
              e.instId in NextMap(vec, items, zone) && NextMap(vec, items, zone)[e.instId] == e
  {
    forall k | k in NextMap(vec, items, zone) ensures NextMap(vec, items, zone)[k].instId == k {
      NextMapAt(vec, items, zone, k);
    }
    hide NextMap, Values;
    ValuesAre(NextMap(vec, items, zone));
  }

  lemma HasMember(vec: seq<TransferInfo>, t: Triple)
    ensures Has(vec, t) <==> exists e :: e in vec && TripleOf(e) == t
  {
    if Has(vec, t) {
      var i :| 0 <= i < |vec| && TripleOf(vec[i]) == t;
      assert vec[i] in vec;
    }
  }

  /** Two lines of the zone with the same id are the same line. */
  lemma SameLine(items: seq<Item>, zone: int32, i: nat, t: Triple)
    requires UniqueIds(items, zone) && i < |items| && items[i].zone == zone
    requires Wanted(items, zone, t) && t.instId == items[i].instId
    ensures t == TripleOfItem(items[i])
  {
  }

  /** Comparing ports as unsigned numbers makes no difference: a line of the zone is new exactly when its triple is
      not held. */
  lemma NewIsNotHeld(item: Item, vec: seq<TransferInfo>, zone: int32)
    ensures IsNew(item, vec, zone) <==> item.zone == zone && !Has(vec, TripleOfItem(item))
    ensures Fits(item.port) ==> TripleOf(Fresh(item)) == TripleOfItem(item)
  {
  }

  /** What one entry after a reload is, when the configuration is clean. */
  ghost predicate Right(vec: seq<TransferInfo>, items: seq<Item>, zone: int32, e: TransferInfo) {
    && Wanted(items, zone, TripleOf(e))
    && if Has(vec, TripleOf(e)) then e in vec else e.fd == 0
  }

  lemma EntryIsRight(vec: seq<TransferInfo>, items: seq<Item>, zone: int32, e: TransferInfo)
    requires SortedById(vec) && UniqueIds(items, zone) && Clean(vec, items, zone)
    requires e in Reconciled(vec, items, zone)
    ensures Right(vec, items, zone, e)
  {
    ReconciledAre(vec, items, zone);
    NextMapAt(vec, items, zone, e.instId);
    hide Reconciled, NextMap, Configured, Fresh;
    if Survivor(vec, items, e) {
      var i :| 0 <= i < |vec| && vec[i] == e;
      assert Wanted(items, zone, TripleOf(vec[i]));
    } else {
      var i :| 0 <= i < |items| && IsNew(items[i], vec, zone) && e == Fresh(items[i]);
      NewIsNotHeld(items[i], vec, zone);
      FreshFd(items[i]);
    }
  }

  lemma FreshFd(item: Item)
    ensures Fresh(item).fd == 0
  {
  }

  lemma RightIsEntry(vec: seq<TransferInfo>, items: seq<Item>, zone: int32, e: TransferInfo)
    requires SortedById(vec) && UniqueIds(items, zone) && Clean(vec, items, zone)
    requires Right(vec, items, zone, e)
    ensures e in Reconciled(vec, items, zone)
  {
    ReconciledAre(vec, items, zone);
    hide Reconciled, NextMap;
    var i :| 0 <= i < |items| && items[i].zone == zone && TripleOfItem(items[i]) == TripleOf(e);
    NewIsNotHeld(items[i], vec, zone);
    if Has(vec, TripleOf(e)) {
      assert Configured(items, TripleOf(e));
      SurvivorKept(vec, items, zone, e);
    } else {
      forall s | Survivor(vec, items, s) ensures s.instId != items[i].instId {
        NoOtherHeld(vec, items, zone, s, i);
      }
      NewAdded(vec, items, zone, i);
      assert e == Fresh(items[i]);
    }
  }

  /** In a clean configuration a survivor does not have the id of a new line. */
  lemma NoOtherHeld(vec: seq<TransferInfo>, items: seq<Item>, zone: int32, s: TransferInfo, i: nat)
    requires UniqueIds(items, zone) && Clean(vec, items, zone) && Survivor(vec, items, s)
    requires i < |items| && items[i].zone == zone && !Has(vec, TripleOfItem(items[i]))
    ensures s.instId != items[i].instId
  {
    var j :| 0 <= j < |vec| && vec[j] == s;
    hide Configured;
    assert Wanted(items, zone, TripleOf(vec[j]));
    if s.instId == items[i].instId {
      SameLine(items, zone, i, TripleOf(s));
    }
  }

  /** In a clean configuration the entries left are exactly the right ones: one for each line of the zone, with the
      connection that was held for it, or none yet. */
  lemma ReconciledExactly(vec: seq<TransferInfo>, items: seq<Item>, zone: int32)
    requires SortedById(vec) && UniqueIds(items, zone) && Clean(vec, items, zone)
    ensures SortedById(Reconciled(vec, items, zone))
    ensures forall e :: e in Reconciled(vec, items, zone) <==> Right(vec, items, zone, e)
  {
    ReconciledAre(vec, items, zone);
    hide Reconciled, Right;
    forall e ensures e in Reconciled(vec, items, zone) <==> Right(vec, items, zone, e) {
      if e in Reconciled(vec, items, zone) {
        EntryIsRight(vec, items, zone, e);
      } else if Right(vec, items, zone, e) {
        RightIsEntry(vec, items, zone, e);
      }
    }
  }

  /** A reload leaves exactly the connections that the lines of the zone name if and only if the configuration
      is clean for the connections held. */
  lemma ConfiguredExactly(vec: seq<TransferInfo>, items: seq<Item>, zone: int32)
    requires SortedById(vec) && UniqueIds(items, zone)
    ensures LeavesConfigured(vec, items, zone) <==> Clean(vec, items, zone)
  {
    hide Reconciled;
    if Clean(vec, items, zone) {
      forall t ensures Has(Reconciled(vec, items, zone), t) <==> Wanted(items, zone, t) {
        CleanLeaves(vec, items, zone, t);
      }
    } else if LeavesConfigured(vec, items, zone) {
      ReconciledAre(vec, items, zone);
      forall i | 0 <= i < |items| && items[i].zone == zone ensures Fits(items[i].port) {
        assert Has(Reconciled(vec, items, zone), TripleOfItem(items[i]));
      }
      forall i | 0 <= i < |vec| && Configured(items, TripleOf(vec[i])) ensures Wanted(items, zone, TripleOf(vec[i])) {
        SurvivorKept(vec, items, zone, vec[i]);
        HasMember(Reconciled(vec, items, zone), TripleOf(vec[i]));
      }
      assert false;
    }
  }

  lemma CleanLeaves(vec: seq<TransferInfo>, items: seq<Item>, zone: int32, t: Triple)
    requires SortedById(vec) && UniqueIds(items, zone) && Clean(vec, items, zone)
    ensures Has(Reconciled(vec, items, zone), t) <==> Wanted(items, zone, t)
  {
    hide Reconciled;
    ReconciledExactly(vec, items, zone);
    HasMember(Reconciled(vec, items, zone), t);
    HasMember(vec, t);
    if Wanted(items, zone, t) {
      if e :| e in vec && TripleOf(e) == t {
        assert Right(vec, items, zone, e);
      } else {
        var i :| 0 <= i < |items| && items[i].zone == zone && TripleOfItem(items[i]) == t;
        var e := Fresh(items[i]);
        assert Right(vec, items, zone, e);
      }
    }
  }

  // ----- repeating and reordering -----

  /** The line's port fits 16 bits, and no held entry that stays takes its id with another triple. */
  predicate SteadyAt(vec: seq<TransferInfo>, items: seq<Item>, item: Item) {
    && Fits(item.port)
    && forall j :: 0 <= j < |vec| && vec[j].instId == item.instId && Configured(items, TripleOf(vec[j])) ==>
         TripleOf(vec[j]) == TripleOfItem(item)
  }

  /** After a reload a line of the zone is held if and only if it is steady. */
  lemma HeldExactly(vec: seq<TransferInfo>, items: seq<Item>, zone: int32, i: nat)
    requires SortedById(vec) && UniqueIds(items, zone) && i < |items| && items[i].zone == zone
    ensures Has(Reconciled(vec, items, zone), TripleOfItem(items[i])) <==> SteadyAt(vec, items, items[i])
  {
    var next, item := Reconciled(vec, items, zone), items[i];
    ReconciledAre(vec, items, zone);
    HasMember(next, TripleOfItem(item));
    NewIsNotHeld(item, vec, zone);
    hide Reconciled, NextMap, IsNew, Fresh, SortedById, UniqueIds;
    if Has(next, TripleOfItem(item)) {
      var e :| e in next && TripleOf(e) == TripleOfItem(item);
      forall j | 0 <= j < |vec| && vec[j].instId == item.instId && Configured(items, TripleOf(vec[j]))
        ensures TripleOf(vec[j]) == TripleOfItem(item)
      {
        assert vec[j] in vec;
        SurvivorKept(vec, items, zone, vec[j]);
      }
    }
    if SteadyAt(vec, items, item) {
      if s :| Survivor(vec, items, s) && s.instId == item.instId {
        var j :| 0 <= j < |vec| && vec[j] == s;
        SurvivorKept(vec, items, zone, s);
        assert s in next && TripleOf(vec[j]) == TripleOfItem(item);
      } else {
        HeldIsSurvivor(vec, items, i);
        NewAdded(vec, items, zone, i);
        FreshId(item);
        assert Fresh(item) in next;
      }
    }
  }

  lemma FreshId(item: Item)
    ensures Fresh(item).instId == item.instId
  {
  }

  /** An entry with the triple of a line stays. */
  lemma HeldIsSurvivor(vec: seq<TransferInfo>, items: seq<Item>, i: nat)
    requires i < |items|
    ensures Has(vec, TripleOfItem(items[i])) ==> exists s :: Survivor(vec, items, s) && s.instId == items[i].instId
  {
    if j :| 0 <= j < |vec| && TripleOf(vec[j]) == TripleOfItem(items[i]) {
      assert Survivor(vec, items, vec[j]);
    }
  }

  predicate Steady(vec: seq<TransferInfo>, items: seq<Item>, zone: int32) {
    forall i :: 0 <= i < |items| && items[i].zone == zone ==> SteadyAt(vec, items, items[i])
  }

  /** A reload of the same configuration opens nothing, closes nothing and changes no connection. */
  ghost predicate ChangesNothing(vec: seq<TransferInfo>, items: seq<Item>, zone: int32) {
    Reconciled(vec, items, zone) == vec && Connects(items, vec, zone) == [] && Closes(vec, items) == []
  }

  /** Repeating a reload changes nothing if and only if every line of the zone is steady. */
  lemma IdempotentExactly(vec: seq<TransferInfo>, items: seq<Item>, zone: int32)
    requires SortedById(vec) && UniqueIds(items, zone)
    ensures ChangesNothing(Reconciled(vec, items, zone), items, zone) <==> Steady(vec, items, zone)
  {
    var next := Reconciled(vec, items, zone);
    hide Reconciled, Connects, Closes, SteadyAt, Has, SortedById, UniqueIds;
    forall i | 0 <= i < |items| && items[i].zone == zone
      ensures Has(next, TripleOfItem(items[i])) <==> SteadyAt(vec, items, items[i])
    {
      HeldExactly(vec, items, zone, i);
    }
    if Steady(vec, items, zone) {
      SteadyFits(vec, items, zone);
      NothingNew(items, next, zone);
      forall i | 0 <= i < |next| ensures Configured(items, TripleOf(next[i])) {
        LeftIsConfigured(vec, items, zone, next[i]);
      }
      NothingDropped(next, items);
      AllSurvive(vec, items, zone);
    }
    if ChangesNothing(next, items, zone) {
      forall i | 0 <= i < |items| && items[i].zone == zone ensures Has(next, TripleOfItem(items[i])) {
        OpenedExactly(next, items, zone, TripleOfItem(items[i]));
        assert Wanted(items, zone, TripleOfItem(items[i]));
      }
    }
  }

  lemma SteadyFits(vec: seq<TransferInfo>, items: seq<Item>, zone: int32)
    requires Steady(vec, items, zone)
    ensures PortsFit(items, zone)
  {
    forall i | 0 <= i < |items| && items[i].zone == zone ensures Fits(items[i].port) {
      assert SteadyAt(vec, items, items[i]);
    }
  }

  /** When the ports fit, whatever is left after a reload is named by the configuration. */
  lemma LeftIsConfigured(vec: seq<TransferInfo>, items: seq<Item>, zone: int32, e: TransferInfo)
    requires SortedById(vec) && PortsFit(items, zone) && e in Reconciled(vec, items, zone)
    ensures Configured(items, TripleOf(e))
  {
    ReconciledAre(vec, items, zone);
    NextMapAt(vec, items, zone, e.instId);
    hide Reconciled, NextMap, IsNew, Fresh, SortedById;
    if !Survivor(vec, items, e) {
      var i :| 0 <= i < |items| && IsNew(items[i], vec, zone) && e == Fresh(items[i]);
      NewIsNotHeld(items[i], vec, zone);
    }
  }

  /** When nothing is new and everything is configured, a reload leaves what there is. */
  lemma AllSurvive(vec: seq<TransferInfo>, items: seq<Item>, zone: int32)
    requires SortedById(vec) && PortsFit(items, zone)
    requires forall i :: 0 <= i < |items| && items[i].zone == zone ==>
               Has(Reconciled(vec, items, zone), TripleOfItem(items[i]))
    ensures var next := Reconciled(vec, items, zone); Reconciled(next, items, zone) == next
  {
    var next := Reconciled(vec, items, zone);
    ReconciledAre(vec, items, zone);
    ReconciledAre(next, items, zone);
    hide Reconciled, NextMap, SortedById, Has, IsNew;
    forall e ensures e in next <==> e in Reconciled(next, items, zone) {
      if e in next {
        LeftIsConfigured(vec, items, zone, e);
        SurvivorKept(next, items, zone, e);
      }
      if e in Reconciled(next, items, zone) {
        NextMapAt(next, items, zone, e.instId);
        if i :| 0 <= i < |items| && IsNew(items[i], next, zone) {
          NewIsNotHeld(items[i], next, zone);
          assert false;
        }
      }
    }
    SortedByIdUnique(next, Reconciled(next, items, zone));
  }

  lemma {:induction false} NothingNew(items: seq<Item>, vec: seq<TransferInfo>, zone: int32)
    requires forall i :: 0 <= i < |items| && items[i].zone == zone ==> Has(vec, TripleOfItem(items[i]))
    ensures Connects(items, vec, zone) == []
  {
    hide Has, IsNew;
    if items != [] {
      NothingNew(items[..|items| - 1], vec, zone);
      NewIsNotHeld(items[|items| - 1], vec, zone);
    }
  }

  lemma {:induction false} NothingDropped(vec: seq<TransferInfo>, items: seq<Item>)
    requires forall i :: 0 <= i < |vec| ==> Configured(items, TripleOf(vec[i]))
    ensures Closes(vec, items) == []
  {
    hide Configured;
    if vec != [] {
      NothingDropped(vec[..|vec| - 1], items);
    }
  }

  lemma {:induction false} TwoPlaces(s: seq<Item>, x: Item)
    requires multiset(s)[x] >= 2
    ensures exists i, j :: 0 <= i < j < |s| && s[i] == s[j] == x
  {
    assert s == [s[0]] + s[1..];
    if s[0] == x {
      assert multiset(s[1..])[x] >= 1;
      assert x in s[1..];
      var j :| 0 <= j < |s| - 1 && s[1..][j] == x;
      assert s[0] == s[j + 1] == x;
    } else {
      TwoPlaces(s[1..], x);
      var i, j :| 0 <= i < j < |s| - 1 && s[1..][i] == s[1..][j] == x;
      assert s[i + 1] == s[j + 1] == x;
    }
  }

  lemma CountedTwice(s: seq<Item>, i: nat, j: nat)
    requires i < j < |s| && s[i] == s[j]
    ensures multiset(s)[s[i]] >= 2
  {
    assert s == s[..i] + ([s[i]] + s[i + 1..]);
    assert s[i + 1..][j - i - 1] == s[j];
    assert multiset(s) == multiset(s[..i]) + multiset{s[i]} + multiset(s[i + 1..]);
  }

  lemma SameMembers(items: seq<Item>, others: seq<Item>, x: Item)
    requires multiset(items) == multiset(others)
    ensures x in items <==> x in others
  {
    assert x in multiset(items) <==> x in multiset(others);
  }

  lemma SameUniqueIds(items: seq<Item>, others: seq<Item>, zone: int32)
    requires multiset(items) == multiset(others) && UniqueIds(items, zone)
    ensures UniqueIds(others, zone)
  {
    forall i, j | 0 <= i < j < |others| && others[i].zone == zone && others[j].zone == zone
      ensures others[i].instId != others[j].instId
    {
      SameMembers(items, others, others[i]);
      SameMembers(items, others, others[j]);
      if others[i] == others[j] {
        CountedTwice(others, i, j);
        TwoPlaces(items, others[i]);
      }
    }
  }

  lemma SameNames(items: seq<Item>, others: seq<Item>, zone: int32, t: Triple)
    requires forall x :: x in items ==> x in others
    ensures Wanted(items, zone, t) ==> Wanted(others, zone, t)
    ensures Configured(items, t) ==> Configured(others, t)
  {
    if Configured(items, t) {
      var i :| 0 <= i < |items| && TripleOfItem(items[i]) == t;
      assert items[i] in items;
      var j :| 0 <= j < |others| && others[j] == items[i];
    }
    if Wanted(items, zone, t) {
      var i :| 0 <= i < |items| && items[i].zone == zone && TripleOfItem(items[i]) == t;
      assert items[i] in items;
      var j :| 0 <= j < |others| && others[j] == items[i];
    }
  }

  lemma SameLines(items: seq<Item>, others: seq<Item>, zone: int32)
    requires multiset(items) == multiset(others)
    ensures UniqueIds(items, zone) ==> UniqueIds(others, zone)
    ensures forall t :: Wanted(items, zone, t) <==> Wanted(others, zone, t)
    ensures forall t :: Configured(items, t) <==> Configured(others, t)
    ensures forall x :: x in items <==> x in others
  {
    hide UniqueIds, Wanted, Configured;
    forall x ensures x in items <==> x in others {
      SameMembers(items, others, x);
    }
    if UniqueIds(items, zone) {
      SameUniqueIds(items, others, zone);
    }
    forall t
      ensures (Wanted(items, zone, t) <==> Wanted(others, zone, t)) && (Configured(items, t) <==> Configured(others, t))
    {
      SameNames(items, others, zone, t);
      SameNames(others, items, zone, t);
    }
  }

  lemma {:induction false} SameKept(vec: seq<TransferInfo>, items: seq<Item>, others: seq<Item>,
                                    start: map<int32, TransferInfo>)
    requires forall t :: Configured(items, t) <==> Configured(others, t)
    ensures KeptMap(vec, items, start) == KeptMap(vec, others, start)
  {
    hide Configured;
    if vec != [] {
      SameKept(vec[..|vec| - 1], items, others, start);
    }
  }

  lemma SameNew(vec: seq<TransferInfo>, items: seq<Item>, others: seq<Item>, zone: int32)
    requires UniqueIds(items, zone) && forall x :: x in items <==> x in others
    ensures NewMap(items, vec, zone) == NewMap(others, vec, zone)
  {
    hide NewMap, IsNew, UniqueIds;
    forall id: int32
      ensures id in NewMap(items, vec, zone) <==> id in NewMap(others, vec, zone)
      ensures id in NewMap(items, vec, zone) ==> NewMap(items, vec, zone)[id] == NewMap(others, vec, zone)[id]
    {
      SameNewAt(vec, items, others, zone, id);
    }
  }

  lemma SameNewAt(vec: seq<TransferInfo>, items: seq<Item>, others: seq<Item>, zone: int32, id: int32)
    requires UniqueIds(items, zone) && forall x :: x in items <==> x in others
    ensures var m, n := NewMap(items, vec, zone), NewMap(others, vec, zone);
            (id in m <==> id in n) && (id in m ==> m[id] == n[id])
  {
    NewMapAt(items, vec, zone, id);
    NewMapAt(others, vec, zone, id);
    var m, n := NewMap(items, vec, zone), NewMap(others, vec, zone);
    hide NewMap, Fresh, Has;
    if id in m {
      var i :| 0 <= i < |items| && IsNew(items[i], vec, zone) && items[i].instId == id && m[id] == Fresh(items[i]);
      assert items[i] in others;
      var k :| 0 <= k < |others| && others[k] == items[i];
    }
    if id in n {
      var j :| 0 <= j < |others| && IsNew(others[j], vec, zone) && others[j].instId == id && n[id] == Fresh(others[j]);
      assert others[j] in items;
      var k :| 0 <= k < |items| && items[k] == others[j];
    }
  }

  /** The order of the configuration does not matter, whatever is held and whatever the lines say. */
  lemma ReloadIgnoresOrder(vec: seq<TransferInfo>, items: seq<Item>, others: seq<Item>, zone: int32)
    requires UniqueIds(items, zone) && multiset(items) == multiset(others)
    ensures UniqueIds(others, zone)
    ensures Reconciled(vec, others, zone) == Reconciled(vec, items, zone)
  {
    hide Values, NewMap, KeptMap, UniqueIds;
    SameLines(items, others, zone);
    SameNew(vec, items, others, zone);
    SameKept(vec, items, others, NewMap(items, vec, zone));
  }

  // ----- what a reload opens and closes -----

  lemma {:induction false} ConnectsAre(items: seq<Item>, vec: seq<TransferInfo>, zone: int32, f: Effect)
    ensures f in Connects(items, vec, zone) <==>
              exists i :: 0 <= i < |items| && IsNew(items[i], vec, zone)
                          && f == ConnectOne(items[i].ip, items[i].port, items[i].instId)
  {
    hide IsNew;
    if items != [] {
      var n := |items| - 1;
      ConnectsAre(items[..n], vec, zone, f);
      if f in Connects(items[..n], vec, zone) {
        var i :| 0 <= i < n && IsNew(items[..n][i], vec, zone)
                 && f == ConnectOne(items[..n][i].ip, items[..n][i].port, items[..n][i].instId);
        assert items[i] == items[..n][i];
      }
      if i :| 0 <= i < |items| && IsNew(items[i], vec, zone)
              && f == ConnectOne(items[i].ip, items[i].port, items[i].instId) {
        assert i < n ==> items[..n][i] == items[i];
      }
    }
  }

  predicate AllConnect(c: seq<Effect>) { forall i :: 0 <= i < |c| ==> c[i].ConnectOne? }

  lemma OneMore(c: seq<Effect>, f: Effect)
    requires AllConnect(c) && f.ConnectOne? && forall i, j :: 0 <= i < j < |c| ==> c[i].instId != c[j].instId
    requires forall i :: 0 <= i < |c| ==> c[i].instId != f.instId
    ensures AllConnect(c + [f])
    ensures forall i, j :: 0 <= i < j < |c + [f]| ==> (c + [f])[i].instId != (c + [f])[j].instId
  {
  }

  /** Each connection opened has its own id. */
  lemma {:induction false} ConnectsOnce(items: seq<Item>, vec: seq<TransferInfo>, zone: int32)
    requires UniqueIds(items, zone)
    ensures var c := Connects(items, vec, zone);
            AllConnect(c) && forall i, j :: 0 <= i < j < |c| ==> c[i].instId != c[j].instId
  {
    if items != [] {
      var n := |items| - 1;
      ConnectsOnce(items[..n], vec, zone);
      var c := Connects(items[..n], vec, zone);
      forall i | 0 <= i < |c|
        ensures c[i].ConnectOne? && (IsNew(items[n], vec, zone) ==> c[i].instId != items[n].instId)
      {
        assert c[i] in c;
        ConnectsAre(items[..n], vec, zone, c[i]);
        var j :| 0 <= j < n && IsNew(items[..n][j], vec, zone)
                 && c[i] == ConnectOne(items[..n][j].ip, items[..n][j].port, items[..n][j].instId);
        assert items[j] == items[..n][j];
        NewInZone(items[j], vec, zone);
        if IsNew(items[n], vec, zone) {
          NewInZone(items[n], vec, zone);
        }
      }
      hide IsNew;
      if IsNew(items[n], vec, zone) {
        assert Connects(items, vec, zone) == c + [ConnectOne(items[n].ip, items[n].port, items[n].instId)];
        OneMore(c, ConnectOne(items[n].ip, items[n].port, items[n].instId));
      } else {
        assert Connects(items, vec, zone) == c;
      }
    }
  }

  /** A reload opens a connection for exactly the lines of the zone whose triple is not held. */
  lemma OpenedExactly(vec: seq<TransferInfo>, items: seq<Item>, zone: int32, t: Triple)
    requires -TWO_31 <= t.port < TWO_31
    ensures ConnectOne(t.ip, t.port, t.instId) in Connects(items, vec, zone) <==> Wanted(items, zone, t) && !Has(vec, t)
  {
    var f := ConnectOne(t.ip, t.port, t.instId);
    ConnectsAre(items, vec, zone, f);
    hide Connects, Has, IsNew;
    if f in Connects(items, vec, zone) {
      var i :| 0 <= i < |items| && IsNew(items[i], vec, zone)
               && f == ConnectOne(items[i].ip, items[i].port, items[i].instId);
      NewIsNotHeld(items[i], vec, zone);
      assert TripleOfItem(items[i]) == t;
    } else if Wanted(items, zone, t) {
      var i :| 0 <= i < |items| && items[i].zone == zone && TripleOfItem(items[i]) == t;
      NewIsNotHeld(items[i], vec, zone);
    }
  }

  lemma NewInZone(item: Item, vec: seq<TransferInfo>, zone: int32)
    requires IsNew(item, vec, zone)
    ensures item.zone == zone
  {
  }

  /** The entries that no line names any more. */
  function Dropped(vec: seq<TransferInfo>, items: seq<Item>): seq<TransferInfo> {
    if vec == [] then []
    else
      var info := vec[|vec| - 1];
      Dropped(vec[..|vec| - 1], items) + if Configured(items, TripleOf(info)) then [] else [info]
  }

  lemma {:induction false} DroppedAre(vec: seq<TransferInfo>, items: seq<Item>)
    requires SortedById(vec)
    ensures SortedById(Dropped(vec, items))
    ensures forall e :: e in Dropped(vec, items) <==> e in vec && !Configured(items, TripleOf(e))
  {
    hide Configured, TripleOf;
    if vec != [] {
      var n := |vec| - 1;
      DroppedAre(vec[..n], items);
      var d := Dropped(vec[..n], items);
      forall i | 0 <= i < |d| ensures d[i].instId < vec[n].instId {
        assert d[i] in vec[..n];
      }
      assert vec == vec[..n] + [vec[n]];
    }
  }

  lemma {:induction false} ClosesAre(vec: seq<TransferInfo>, items: seq<Item>)
    ensures |Closes(vec, items)| == |Dropped(vec, items)|
    ensures forall i :: 0 <= i < |Dropped(vec, items)| ==> Closes(vec, items)[i] == CloseFd(Dropped(vec, items)[i].fd)
  {
    hide Configured;
    if vec != [] {
      ClosesAre(vec[..|vec| - 1], items);
    }
  }

  /** A reload closes, once each and in order, the connections of the entries that are not left; an entry without a
      connection may be dropped while a line whose port is cut leaves one just like it, but not when the ports fit. */
  lemma ClosedExactly(vec: seq<TransferInfo>, items: seq<Item>, zone: int32, e: TransferInfo)
    requires SortedById(vec) && e in vec
    ensures e.fd != 0 ==> (e in Dropped(vec, items) <==> e !in Reconciled(vec, items, zone))
    ensures PortsFit(items, zone) ==> (e in Dropped(vec, items) <==> !Has(Reconciled(vec, items, zone), TripleOf(e)))
  {
    DroppedAre(vec, items);
    HasMember(Reconciled(vec, items, zone), TripleOf(e));
    ReconciledAre(vec, items, zone);
    hide Reconciled, Dropped, Has, NextMap, SortedById, PortsFit;
    if Configured(items, TripleOf(e)) {
      SurvivorKept(vec, items, zone, e);
    } else {
      if e in Reconciled(vec, items, zone) && e.fd != 0 {
        ConnectedIsSurvivor(vec, items, zone, e);
      }
      if PortsFit(items, zone) {
        if d :| d in Reconciled(vec, items, zone) && TripleOf(d) == TripleOf(e) {
          LeftIsConfigured(vec, items, zone, d);
        }
      }
    }
  }

  /** No two entries share a connection. */
  predicate ApartFds(vec: seq<TransferInfo>) {
    forall i, j :: 0 <= i < j < |vec| && vec[i].fd != 0 ==> vec[i].fd != vec[j].fd
  }

  /** Whoever has a connection after a reload had it before, and is named by the configuration. */
  lemma ConnectedIsSurvivor(vec: seq<TransferInfo>, items: seq<Item>, zone: int32, e: TransferInfo)
    requires SortedById(vec) && e in Reconciled(vec, items, zone) && e.fd != 0
    ensures Survivor(vec, items, e)
  {
    ReconciledAre(vec, items, zone);
    NextMapAt(vec, items, zone, e.instId);
    hide Reconciled, NextMap, IsNew, Fresh, SortedById, Configured;
    forall i | 0 <= i < |items| ensures Fresh(items[i]).fd == 0 {
      FreshFd(items[i]);
    }
  }

  /** Two entries share a connection, and the configuration names one of them but not the other. */
  predicate Splits(vec: seq<TransferInfo>, items: seq<Item>) {
    exists i, j :: 0 <= i < |vec| && 0 <= j < |vec| && vec[i].fd == vec[j].fd != 0
                   && Configured(items, TripleOf(vec[i])) && !Configured(items, TripleOf(vec[j]))
  }

  /** A reload closes no connection of an entry that is left. */
  ghost predicate KeepsOpen(vec: seq<TransferInfo>, items: seq<Item>, zone: int32) {
    forall e :: e in Reconciled(vec, items, zone) && e.fd != 0 ==> CloseFd(e.fd) !in Closes(vec, items)
  }

  lemma ClosedFds(vec: seq<TransferInfo>, items: seq<Item>, fd: int64)
    requires SortedById(vec)
    ensures CloseFd(fd) in Closes(vec, items)
       <==> exists j :: 0 <= j < |vec| && vec[j].fd == fd && !Configured(items, TripleOf(vec[j]))
  {
    ClosesAre(vec, items);
    DroppedAre(vec, items);
    var closes, dropped := Closes(vec, items), Dropped(vec, items);
    hide Closes, Dropped, Configured, TripleOf, SortedById;
    if CloseFd(fd) in closes {
      var i :| 0 <= i < |closes| && closes[i] == CloseFd(fd);
      assert dropped[i] in dropped;
      var j :| 0 <= j < |vec| && vec[j] == dropped[i];
    }
    if j :| 0 <= j < |vec| && vec[j].fd == fd && !Configured(items, TripleOf(vec[j])) {
      assert vec[j] in vec && vec[j] in dropped;
      var i :| 0 <= i < |dropped| && dropped[i] == vec[j];
      assert closes[i] == CloseFd(fd);
    }
  }

  /** A reload closes no connection that is left if and only if it splits no shared one. */
  lemma KeepsOpenExactly(vec: seq<TransferInfo>, items: seq<Item>, zone: int32)
    requires SortedById(vec)
    ensures KeepsOpen(vec, items, zone) <==> !Splits(vec, items)
  {
    ReconciledAre(vec, items, zone);
    hide Reconciled, Closes, NextMap, SortedById, Configured;
    if i, j :| 0 <= i < |vec| && 0 <= j < |vec| && vec[i].fd == vec[j].fd != 0
               && Configured(items, TripleOf(vec[i])) && !Configured(items, TripleOf(vec[j])) {
      assert Survivor(vec, items, vec[i]);
      SurvivorKept(vec, items, zone, vec[i]);
      ClosedFds(vec, items, vec[i].fd);
      assert vec[i] in Reconciled(vec, items, zone);
    }
    if e :| e in Reconciled(vec, items, zone) && e.fd != 0 && CloseFd(e.fd) in Closes(vec, items) {
      ConnectedIsSurvivor(vec, items, zone, e);
      ClosedFds(vec, items, e.fd);
      var j :| 0 <= j < |vec| && vec[j].fd == e.fd && !Configured(items, TripleOf(vec[j]));
      var i :| 0 <= i < |vec| && vec[i] == e;
      assert Splits(vec, items);
    }
  }

  /** Connections that no two entries share cannot be split. */
  lemma ApartNotSplit(vec: seq<TransferInfo>, items: seq<Item>)
    requires ApartFds(vec)
    ensures !Splits(vec, items)
  {
    hide Configured;
  }

  /** A line outside the zone can keep a connection the zone has dropped. */
  lemma KeptByAnotherZone()
    ensures var vec, items := [TransferInfo("10.0.0.1", 80, 1, 5)], [Item("10.0.0.1", 80, 2, 1)];
            !Clean(vec, items, 1) && !LeavesConfigured(vec, items, 1)
  {
    var vec, items := [TransferInfo("10.0.0.1", 80, 1, 5)], [Item("10.0.0.1", 80, 2, 1)];
    assert TripleOfItem(items[0]) == TripleOf(vec[0]);
    assert Configured(items, TripleOf(vec[0]));
    assert !Wanted(items, 1, TripleOf(vec[0]));
    ConfiguredExactly(vec, items, 1);
  }

  /** A line of the zone is connected to on every reload, whatever is held, if and only if its port does not fit
      16 bits. */
  lemma NeverHeldExactly(items: seq<Item>, zone: int32, i: nat)
    requires i < |items| && items[i].zone == zone
    ensures (forall vec :: OpensLine(items[i], items, vec, zone)) <==> !Fits(items[i].port)
  {
    var item := items[i];
    assert Wanted(items, zone, TripleOfItem(item));
    hide Connects, Wanted;
    forall vec ensures OpensLine(item, items, vec, zone) <==> !Has(vec, TripleOfItem(item)) {
      OpenedExactly(vec, items, zone, TripleOfItem(item));
    }
    if Fits(item.port) {
      var held := [TransferInfo(item.ip, item.port, item.instId, 0)];
      assert TripleOf(held[0]) == TripleOfItem(item);
      assert !OpensLine(item, items, held, zone);
    }
  }

  predicate OpensLine(item: Item, items: seq<Item>, vec: seq<TransferInfo>, zone: int32) {
    ConnectOne(item.ip, item.port, item.instId) in Connects(items, vec, zone)
  }

  /** A reload right after another one connects to a line of the zone once more if and only if the line is not steady. */
  lemma ReopenedExactly(vec: seq<TransferInfo>, items: seq<Item>, zone: int32, i: nat)
    requires SortedById(vec) && UniqueIds(items, zone) && i < |items| && items[i].zone == zone
    ensures OpensLine(items[i], items, Reconciled(vec, items, zone), zone) <==> !SteadyAt(vec, items, items[i])
  {
    hide Reconciled, Connects, SteadyAt, Has, SortedById, UniqueIds;
    HeldExactly(vec, items, zone, i);
    OpenedExactly(Reconciled(vec, items, zone), items, zone, TripleOfItem(items[i]));
    assert Wanted(items, zone, TripleOfItem(items[i]));
  }

  // ----- logins -----

  /** A login gives its connection to the first entry with its triple. */
  function LoggedIn(vec: seq<TransferInfo>, t: Triple, fd: int64): seq<TransferInfo> {
    if vec == [] then []
    else if TripleOf(vec[0]) == t then [vec[0].(fd := fd)] + vec[1..]
    else [vec[0]] + LoggedIn(vec[1..], t, fd)
  }

  /** A login changes the connection of the one entry with its triple and nothing else. */
  lemma {:induction false} LoginIsLocal(vec: seq<TransferInfo>, t: Triple, fd: int64)
    requires SortedById(vec)
    ensures var next := LoggedIn(vec, t, fd);
            && |next| == |vec| && SortedById(next)
            && forall i :: 0 <= i < |vec| ==> next[i] == if TripleOf(vec[i]) == t then vec[i].(fd := fd) else vec[i]
  {
    if vec != [] {
      LoginIsLocal(vec[1..], t, fd);
      var next := LoggedIn(vec, t, fd);
      forall i | 0 <= i < |vec| ensures next[i] == if TripleOf(vec[i]) == t then vec[i].(fd := fd) else vec[i] {
        if i > 0 {
          assert vec[1..][i - 1] == vec[i];
        }
      }
    }
  }

  function Triples(vec: seq<TransferInfo>): (ts: seq<Triple>)
    ensures |ts| == |vec| && forall i :: 0 <= i < |vec| ==> ts[i] == TripleOf(vec[i])
  {
    if vec == [] then [] else Triples(vec[..|vec| - 1]) + [TripleOf(vec[|vec| - 1])]
  }

  // ----- runs -----

  datatype Event = Reload(items: seq<Item>) | LoginTransfer(triple: Triple, fd: int64)

  ghost function Next(vec: seq<TransferInfo>, e: Event, zone: int32): seq<TransferInfo> {
    match e
    case Reload(items) => if UniqueIds(items, zone) then Reconciled(vec, items, zone) else vec
    case LoginTransfer(t, fd) => LoggedIn(vec, t, fd)
  }

  /** The connections after a run from none. */
  ghost function After(es: seq<Event>, zone: int32): seq<TransferInfo> {
    if es == [] then [] else Next(After(es[..|es| - 1], zone), es[|es| - 1], zone)
  }

  /** Over every run the connections are strictly increasing by id, so that a login concerns at most one. */
  lemma {:induction false} SortedOverRuns(es: seq<Event>, zone: int32)
    ensures SortedById(After(es, zone))
  {
    hide SortedById;
    if es == [] {
      NoneSorted();
    } else {
      SortedOverRuns(es[..|es| - 1], zone);
      var before := After(es[..|es| - 1], zone);
      match es[|es| - 1] {
        case Reload(items) => ReconciledAre(before, items, zone);
        case LoginTransfer(t, fd) => LoginIsLocal(before, t, fd);
      }
    }
  }

  /** A login with a connection that another entry already has. */
  predicate Shares(vec: seq<TransferInfo>, t: Triple, fd: int64) {
    fd != 0 && Has(vec, t) && exists i :: 0 <= i < |vec| && vec[i].fd == fd && TripleOf(vec[i]) != t
  }

  /** No login of the run uses a connection that another entry has at that moment. */
  ghost predicate Exclusive(es: seq<Event>, zone: int32) {
    forall n :: 0 <= n < |es| && es[n].LoginTransfer? ==> !Shares(After(es[..n], zone), es[n].triple, es[n].fd)
  }

  /** A login keeps the connections apart if and only if it does not share one. */
  lemma LoginKeepsApart(vec: seq<TransferInfo>, t: Triple, fd: int64)
    requires SortedById(vec) && ApartFds(vec)
    ensures ApartFds(LoggedIn(vec, t, fd)) <==> !Shares(vec, t, fd)
  {
    LoginIsLocal(vec, t, fd);
    var next := LoggedIn(vec, t, fd);
    if Shares(vec, t, fd) {
      var i :| 0 <= i < |vec| && vec[i].fd == fd && TripleOf(vec[i]) != t;
      var j :| 0 <= j < |vec| && TripleOf(vec[j]) == t;
      assert next[i].fd == next[j].fd == fd;
    } else {
      forall i, j | 0 <= i < j < |next| && next[i].fd != 0 ensures next[i].fd != next[j].fd {
        assert Shares(vec, t, fd) || TripleOf(vec[i]) != t || vec[j].fd != fd;
        assert Shares(vec, t, fd) || TripleOf(vec[j]) != t || vec[i].fd != fd;
      }
    }
  }

  lemma ReloadKeepsApart(vec: seq<TransferInfo>, items: seq<Item>, zone: int32)
    requires SortedById(vec) && ApartFds(vec)
    ensures ApartFds(Reconciled(vec, items, zone))
  {
    var next := Reconciled(vec, items, zone);
    ReconciledAre(vec, items, zone);
    hide Reconciled, NextMap, Configured;
    forall i, j | 0 <= i < j < |next| && next[i].fd != 0 ensures next[i].fd != next[j].fd {
      if next[j].fd != 0 {
        ConnectedIsSurvivor(vec, items, zone, next[i]);
        ConnectedIsSurvivor(vec, items, zone, next[j]);
        var k :| 0 <= k < |vec| && vec[k] == next[i];
        var l :| 0 <= l < |vec| && vec[l] == next[j];
        assert next[i].instId < next[j].instId;
      }
    }
  }

  /** Over a run no two entries ever share a connection if and only if no login uses a connection that another entry
      has at that moment. */
  lemma {:induction false} ApartExactly(es: seq<Event>, zone: int32)
    ensures (forall n :: 0 <= n <= |es| ==> ApartFds(After(es[..n], zone))) <==> Exclusive(es, zone)
  {
    hide ApartFds, Shares, After;
    if es == [] {
      NoneApart(zone);
    } else {
      var m := |es| - 1;
      var run := es[..m];
      ApartExactly(run, zone);
      assert forall n :: 0 <= n <= m ==> run[..n] == es[..n];
      assert forall n :: 0 <= n < m ==> run[n] == es[n];
      assert es[..|es|] == es == run + [es[m]];
      if Exclusive(run, zone) {
        assert run[..m] == run;
        LastKeepsApart(run, es[m], zone);
      }
    }
  }

  lemma NoneApart(zone: int32)
    ensures ApartFds(After([], zone))
  {
  }

  lemma LastKeepsApart(run: seq<Event>, e: Event, zone: int32)
    requires ApartFds(After(run, zone))
    ensures ApartFds(After(run + [e], zone)) <==> !(e.LoginTransfer? && Shares(After(run, zone), e.triple, e.fd))
  {
    hide *;
    SortedOverRuns(run, zone);
    AfterStep(run, e, zone);
    match e {
      case Reload(items) => ReloadKeepsApart(After(run, zone), items, zone);
      case LoginTransfer(t, fd) => LoginKeepsApart(After(run, zone), t, fd);
    }
  }

  /** No reload of the run that is accepted splits a connection shared at that moment. */
  ghost predicate NeverSplits(es: seq<Event>, zone: int32) {
    forall n :: 0 <= n < |es| && es[n].Reload? && UniqueIds(es[n].items, zone) ==>
                  !Splits(After(es[..n], zone), es[n].items)
  }

  /** No reload of the run that is accepted closes a connection that it leaves. */
  ghost predicate AlwaysKeepsOpen(es: seq<Event>, zone: int32) {
    forall n :: 0 <= n < |es| && es[n].Reload? && UniqueIds(es[n].items, zone) ==>
                  KeepsOpen(After(es[..n], zone), es[n].items, zone)
  }

  /** Over a run no reload closes a connection it leaves if and only if none splits a shared one; so it is when no login
      uses a connection that another entry has. */
  lemma KeepsOpenOverRuns(es: seq<Event>, zone: int32)
    ensures AlwaysKeepsOpen(es, zone) <==> NeverSplits(es, zone)
    ensures Exclusive(es, zone) ==> NeverSplits(es, zone)
  {
    ApartExactly(es, zone);
    hide After, Exclusive, KeepsOpen, Splits, ApartFds, UniqueIds;
    forall n | 0 <= n < |es| && es[n].Reload?
      ensures KeepsOpen(After(es[..n], zone), es[n].items, zone) <==> !Splits(After(es[..n], zone), es[n].items)
      ensures ApartFds(After(es[..n], zone)) ==> !Splits(After(es[..n], zone), es[n].items)
    {
      SortedOverRuns(es[..n], zone);
      KeepsOpenExactly(After(es[..n], zone), es[n].items, zone);
      if ApartFds(After(es[..n], zone)) {
        ApartNotSplit(After(es[..n], zone), es[n].items);
      }
    }
  }

  lemma NoneSorted()
    ensures SortedById([])
  {
  }

  /** What decides the triples: the last reload that was accepted. */
  lemma {:induction false} LoginsKeepTriples(es: seq<Event>, logins: seq<Event>, zone: int32)
    requires forall i :: 0 <= i < |logins| ==> logins[i].LoginTransfer?
    ensures Triples(After(es + logins, zone)) == Triples(After(es, zone))
  {
    hide *;
    if logins == [] {
      assert es + logins == es;
    } else {
      var n := |logins| - 1;
      assert es + logins == es + logins[..n] + [logins[n]];
      LoginsKeepTriples(es, logins[..n], zone);
      SortedOverRuns(es + logins[..n], zone);
      SameTriples(After(es + logins[..n], zone), logins[n].triple, logins[n].fd);
      AfterStep(es + logins[..n], logins[n], zone);
    }
  }

  lemma AfterStep(es: seq<Event>, e: Event, zone: int32)
    ensures After(es + [e], zone) == Next(After(es, zone), e, zone)
    ensures e.LoginTransfer? ==> After(es + [e], zone) == LoggedIn(After(es, zone), e.triple, e.fd)
    ensures e.Reload? ==>
              After(es + [e], zone)
              == if UniqueIds(e.items, zone) then Reconciled(After(es, zone), e.items, zone) else After(es, zone)
  {
    hide Reconciled, LoggedIn;
    var run := es + [e];
    assert run[..|run| - 1] == es;
  }

  lemma SameTriples(vec: seq<TransferInfo>, t: Triple, fd: int64)
    requires SortedById(vec)
    ensures Triples(LoggedIn(vec, t, fd)) == Triples(vec)
  {
    LoginIsLocal(vec, t, fd);
  }

  function ButLast(a: seq<TransferInfo>): seq<TransferInfo>
    requires a != []
  {
    a[..|a| - 1]
  }

  /** Sorted vectors that hold the same triples hold them in the same places. */
  lemma {:induction false} TriplesUnique(a: seq<TransferInfo>, b: seq<TransferInfo>)
    requires SortedById(a) && SortedById(b) && forall t :: Has(a, t) <==> Has(b, t)
    ensures Triples(a) == Triples(b)
    decreases |a|
  {
    if a == [] || b == [] {
      assert a != [] ==> Has(a, TripleOf(a[0]));
      assert b != [] ==> Has(b, TripleOf(b[0]));
    } else {
      LastTriple(a, b);
      TriplesUnique(ButLast(a), ButLast(b));
    }
  }

  lemma LastTriple(a: seq<TransferInfo>, b: seq<TransferInfo>)
    requires SortedById(a) && SortedById(b) && a != [] && b != [] && forall t :: Has(a, t) <==> Has(b, t)
    ensures TripleOf(a[|a| - 1]) == TripleOf(b[|b| - 1])
    ensures forall t :: Has(ButLast(a), t) <==> Has(ButLast(b), t)
  {
    hide Has, ButLast;
    LastOf(a);
    LastOf(b);
    forall t ensures Has(ButLast(a), t) <==> Has(ButLast(b), t) {
      assert Has(a, t) <==> Has(b, t);
    }
  }

  lemma LastOf(a: seq<TransferInfo>)
    requires SortedById(a) && a != []
    ensures var last := TripleOf(a[|a| - 1]);
            && Has(a, last)
            && (forall t :: Has(a, t) ==> t.instId <= last.instId && (t.instId == last.instId ==> t == last))
            && (forall t :: Has(ButLast(a), t) <==> Has(a, t) && t != last)
  {
    var n := |a| - 1;
    forall t ensures Has(ButLast(a), t) <==> Has(a, t) && t != TripleOf(a[n]) {
      if Has(a[..n], t) {
        var i :| 0 <= i < n && TripleOf(a[..n][i]) == t;
        assert a[i] == a[..n][i];
      }
      if Has(a, t) && t != TripleOf(a[n]) {
        var i :| 0 <= i <= n && TripleOf(a[i]) == t;
        assert a[..n][i] == a[i];
      }
    }
  }

  /** Some line of the zone stands for the triple, its port cut to 16 bits. */
  predicate Own(items: seq<Item>, zone: int32, t: Triple) {
    exists i :: 0 <= i < |items| && items[i].zone == zone
                && t == Triple(items[i].ip, items[i].port % 0x1_0000, items[i].instId)
  }

  /** The triple is held and some line names it, but no line of the zone stands for it. */
  predicate Stray(vec: seq<TransferInfo>, items: seq<Item>, zone: int32, t: Triple) {
    Has(vec, t) && Configured(items, t) && !Own(items, zone, t)
  }

  /** No stray triple has the id. */
  ghost predicate FreeOfStrays(vec: seq<TransferInfo>, items: seq<Item>, zone: int32, id: int32) {
    forall s :: Stray(vec, items, zone, s) ==> s.instId != id
  }

  lemma OwnLine(items: seq<Item>, zone: int32, i: nat, j: nat)
    requires UniqueIds(items, zone) && i < |items| && j < |items|
    requires items[i].zone == zone == items[j].zone && items[i].instId == items[j].instId
    ensures i == j
  {
  }

  lemma StrayIsHeld(vec: seq<TransferInfo>, items: seq<Item>, zone: int32, t: Triple) returns (e: TransferInfo)
    requires Stray(vec, items, zone, t)
    ensures Survivor(vec, items, e) && TripleOf(e) == t
  {
    hide Configured, Own;
    var i :| 0 <= i < |vec| && TripleOf(vec[i]) == t;
    e := vec[i];
  }

  lemma LeftIsOwnOrStray(vec: seq<TransferInfo>, items: seq<Item>, zone: int32, e: TransferInfo)
    requires SortedById(vec) && e in Reconciled(vec, items, zone)
    ensures var t := TripleOf(e);
            Stray(vec, items, zone, t) || (Own(items, zone, t) && FreeOfStrays(vec, items, zone, t.instId))
  {
    var t := TripleOf(e);
    ReconciledAre(vec, items, zone);
    NextMapAt(vec, items, zone, e.instId);
    HasMember(vec, t);
    hide Reconciled, NextMap, Configured, Has, SortedById, Fresh, Own;
    forall s | Stray(vec, items, zone, s) ensures s.instId == t.instId ==> s == t {
      var d := StrayIsHeld(vec, items, zone, s);
      SurvivorKept(vec, items, zone, d);
    }
    if !Survivor(vec, items, e) {
      var i :| 0 <= i < |items| && IsNew(items[i], vec, zone) && e == Fresh(items[i]);
      assert Own(items, zone, t) by {
        hide IsNew;
        NewInZone(items[i], vec, zone);
        OwnIs(items, zone, i);
      }
    }
  }

  lemma FreshTriple(item: Item)
    ensures TripleOf(Fresh(item)) == Triple(item.ip, item.port % 0x1_0000, item.instId)
  {
  }

  lemma OwnIs(items: seq<Item>, zone: int32, i: nat)
    requires i < |items| && items[i].zone == zone
    ensures Own(items, zone, TripleOf(Fresh(items[i])))
  {
  }

  lemma StrayIsLeft(vec: seq<TransferInfo>, items: seq<Item>, zone: int32, t: Triple)
    requires SortedById(vec) && Stray(vec, items, zone, t)
    ensures Has(Reconciled(vec, items, zone), t)
  {
    hide *;
    var e := StrayIsHeld(vec, items, zone, t);
    SurvivorKept(vec, items, zone, e);
    ReconciledAre(vec, items, zone);
    HasMember(Reconciled(vec, items, zone), t);
  }

  lemma OwnIsLeft(vec: seq<TransferInfo>, items: seq<Item>, zone: int32, t: Triple)
    requires SortedById(vec) && UniqueIds(items, zone)
    requires Own(items, zone, t) && FreeOfStrays(vec, items, zone, t.instId)
    ensures Has(Reconciled(vec, items, zone), t)
  {
    var next := Reconciled(vec, items, zone);
    ReconciledAre(vec, items, zone);
    HasMember(next, t);
    var i :| 0 <= i < |items| && items[i].zone == zone
             && t == Triple(items[i].ip, items[i].port % 0x1_0000, items[i].instId);
    FreshTriple(items[i]);
    hide Reconciled, NextMap, Configured, Has, SortedById, UniqueIds, Fresh;
    if s :| Survivor(vec, items, s) && s.instId == t.instId {
      HasMember(vec, TripleOf(s));
      assert Own(items, zone, TripleOf(s));
      var j :| 0 <= j < |items| && items[j].zone == zone
               && TripleOf(s) == Triple(items[j].ip, items[j].port % 0x1_0000, items[j].instId);
      OwnLine(items, zone, i, j);
      SurvivorKept(vec, items, zone, s);
    } else {
      HeldIsSurvivor(vec, items, i);
      NewIsNotHeld(items[i], vec, zone);
      NewAdded(vec, items, zone, i);
      assert Fresh(items[i]) in next;
    }
  }

  /** What a reload leaves: the stray triples, and those of the zone's lines whose id no stray one has. */
  lemma LeftExactly(vec: seq<TransferInfo>, items: seq<Item>, zone: int32, t: Triple)
    requires SortedById(vec) && UniqueIds(items, zone)
    ensures Has(Reconciled(vec, items, zone), t)
       <==> Stray(vec, items, zone, t) || (Own(items, zone, t) && FreeOfStrays(vec, items, zone, t.instId))
  {
    hide Stray, Own, FreeOfStrays, Has, SortedById, UniqueIds, Reconciled;
    HasMember(Reconciled(vec, items, zone), t);
    if e :| e in Reconciled(vec, items, zone) && TripleOf(e) == t {
      LeftIsOwnOrStray(vec, items, zone, e);
    }
    if Stray(vec, items, zone, t) {
      StrayIsLeft(vec, items, zone, t);
    } else if Own(items, zone, t) && FreeOfStrays(vec, items, zone, t.instId) {
      OwnIsLeft(vec, items, zone, t);
    }
  }

  ghost predicate SameStrays(a: seq<TransferInfo>, b: seq<TransferInfo>, items: seq<Item>, zone: int32) {
    forall t :: Stray(a, items, zone, t) <==> Stray(b, items, zone, t)
  }

  lemma {:induction false} SameTriplesHeld(a: seq<TransferInfo>, b: seq<TransferInfo>, t: Triple)
    requires Triples(a) == Triples(b) && Has(a, t)
    ensures Has(b, t)
  {
    var i :| 0 <= i < |a| && TripleOf(a[i]) == t;
    assert Triples(a)[i] == Triples(b)[i];
  }

  /** Reloading the same lines leaves the same triples, place by place, if and only if the same triples are stray. */
  lemma SamePlacesExactly(a: seq<TransferInfo>, b: seq<TransferInfo>, items: seq<Item>, zone: int32)
    requires SortedById(a) && SortedById(b) && UniqueIds(items, zone)
    ensures Triples(Reconciled(a, items, zone)) == Triples(Reconciled(b, items, zone)) <==> SameStrays(a, b, items, zone)
  {
    hide Stray, Own, Has, SortedById, UniqueIds, Reconciled, Triples;
    var next, other := Reconciled(a, items, zone), Reconciled(b, items, zone);
    ReconciledAre(a, items, zone);
    ReconciledAre(b, items, zone);
    forall t
      ensures Has(next, t)
         <==> Stray(a, items, zone, t) || (Own(items, zone, t) && FreeOfStrays(a, items, zone, t.instId))
      ensures Has(other, t)
         <==> Stray(b, items, zone, t) || (Own(items, zone, t) && FreeOfStrays(b, items, zone, t.instId))
      ensures Stray(a, items, zone, t) || Stray(b, items, zone, t) ==> !Own(items, zone, t)
    {
      LeftExactly(a, items, zone, t);
      LeftExactly(b, items, zone, t);
      StrayNotOwn(a, items, zone, t);
      StrayNotOwn(b, items, zone, t);
    }
    if SameStrays(a, b, items, zone) {
      TriplesUnique(next, other);
    }
    if Triples(next) == Triples(other) {
      forall t ensures Stray(a, items, zone, t) <==> Stray(b, items, zone, t) {
        if Has(next, t) {
          SameTriplesHeld(next, other, t);
        }
        if Has(other, t) {
          SameTriplesHeld(other, next, t);
        }
      }
    }
  }

  lemma StrayNotOwn(vec: seq<TransferInfo>, items: seq<Item>, zone: int32, t: Triple)
    ensures Stray(vec, items, zone, t) ==> !Own(items, zone, t)
  {
  }

  /** In particular a reload leaves what it would leave from nothing if and only if whatever is held and named by some
      line is named by a line of the zone. */
  lemma PlacesAsFromNothing(vec: seq<TransferInfo>, items: seq<Item>, zone: int32)
    requires SortedById(vec) && UniqueIds(items, zone)
    ensures Triples(Reconciled(vec, items, zone)) == Triples(Reconciled([], items, zone))
       <==> forall j :: 0 <= j < |vec| && Configured(items, TripleOf(vec[j])) ==> Own(items, zone, TripleOf(vec[j]))
  {
    NoneSorted();
    SamePlacesExactly(vec, [], items, zone);
    hide Reconciled, Triples, SortedById, UniqueIds, Configured, Own;
    assert forall t :: !Stray([], items, zone, t);
    forall j | 0 <= j < |vec|
      ensures Stray(vec, items, zone, TripleOf(vec[j]))
         <==> Configured(items, TripleOf(vec[j])) && !Own(items, zone, TripleOf(vec[j]))
    {
      assert Has(vec, TripleOf(vec[j]));
    }
    if t :| Stray(vec, items, zone, t) {
      var j :| 0 <= j < |vec| && TripleOf(vec[j]) == t;
    }
  }

  /** A line of another zone makes the places depend on what was held. */
  lemma PlacesDependOnHistory()
    ensures var vec, items := [TransferInfo("10.0.0.1", 80, 1, 5)], [Item("10.0.0.1", 80, 2, 1)];
            Triples(Reconciled(vec, items, 1)) != Triples(Reconciled([], items, 1))
  {
    var vec, items := [TransferInfo("10.0.0.1", 80, 1, 5)], [Item("10.0.0.1", 80, 2, 1)];
    PlacesAsFromNothing(vec, items, 1);
    hide Reconciled;
    assert TripleOfItem(items[0]) == TripleOf(vec[0]);
    assert Configured(items, TripleOf(vec[0]));
    assert !Own(items, 1, TripleOf(vec[0]));
  }

  /** The place a user's packets go to depends only on the configuration, exactly when the histories leave the same
      triples stray: after reloads of the same lines in any order, over any two histories and whoever has logged in since,
      the triples are the same, place by place, if and only if the same triples are stray at the reload. */
  lemma PlacesDependOnConfiguration(es: seq<Event>, fs: seq<Event>, items: seq<Item>, others: seq<Item>,
                                    logins: seq<Event>, moreLogins: seq<Event>, zone: int32)
    requires UniqueIds(items, zone) && multiset(items) == multiset(others)
    requires forall i :: 0 <= i < |logins| ==> logins[i].LoginTransfer?
    requires forall i :: 0 <= i < |moreLogins| ==> moreLogins[i].LoginTransfer?
    ensures Triples(After(es + [Reload(items)] + logins, zone)) == Triples(After(fs + [Reload(others)] + moreLogins, zone))
       <==> SameStrays(After(es, zone), After(fs, zone), items, zone)
  {
    hide *;
    SortedOverRuns(es, zone);
    SortedOverRuns(fs, zone);
    ReloadIgnoresOrder(After(fs, zone), items, others, zone);
    AfterStep(es, Reload(items), zone);
    AfterStep(fs, Reload(others), zone);
    LoginsKeepTriples(es + [Reload(items)], logins, zone);
    LoginsKeepTriples(fs + [Reload(others)], moreLogins, zone);
    SamePlacesExactly(After(es, zone), After(fs, zone), items, zone);
  }
}
