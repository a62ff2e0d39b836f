/** What holds of the registry over whole runs of logins, logouts and configuration changes. */
module InstanceRuns {
  import opened Options
  import opened Integers
  import opened Ordered
  import opened Instances

  datatype Event =
    | LogIn(serverType: uint32, id: int32, fd: int64)
    | LogOut(fd: int64)
    | Reconfigure(config: Option<seq<Policy>>)

  ghost predicate Step(r: Registry, e: Event, s: Registry) {
    && Linked(r)
    && match e
       case LogIn(serverType, id, fd) => s == Login(r, serverType, id, fd)
       case LogOut(fd) => Logout(r, fd, s)
       case Reconfigure(config) => s == r.(config := config)
  }

  /** A run from the empty registry, with the registry before and after each event. */
  ghost predicate Run(states: seq<Registry>, es: seq<Event>) {
    && |states| == |es| + 1 && states[0] == NOTHING
    && forall n :: 0 <= n < |es| ==> Step(states[n], es[n], states[n + 1])
  }

  predicate AcceptedAt(states: seq<Registry>, es: seq<Event>, n: nat)
    requires n < |es| && n < |states|
  {
    es[n].LogIn? && Accepts(states[n].config, es[n].serverType, es[n].id)
  }

  /** Every login that is accepted fits the combined key. */
  ghost predicate Fits(states: seq<Registry>, es: seq<Event>)
    requires Run(states, es)
  {
    forall n :: 0 <= n < |es| && AcceptedAt(states, es, n) ==> InRange(es[n].serverType, es[n].id)
  }

  // ----- the invariant -----

  /** A step keeps the invariant if and only if it is not an accepted login that is unsound. */
  lemma StepKeepsInv(r: Registry, e: Event, s: Registry)
    requires Inv(r) && Step(r, e, s)
    ensures Inv(s) <==> (e.LogIn? && Accepts(r.config, e.serverType, e.id) ==> Sound(r, e.serverType, e.id))
  {
    hide Inv, Sound, Accepts;
    match e {
      case LogIn(serverType, id, fd) =>
        if Accepts(r.config, serverType, id) {
          LoginKeepsInvExactly(r, serverType, id, fd);
        }
      case LogOut(fd) => LogoutKeepsInv(r, fd, s);
      case Reconfigure(config) =>
        hide *;
        ReconfigureKeepsInv(r, config);
    }
  }

  lemma ReconfigureKeepsInv(r: Registry, config: Option<seq<Policy>>)
    requires Inv(r)
    ensures Inv(r.(config := config))
  {
    var s := r.(config := config);
    forall k | k in s.entries ensures EntryOk(s, k) {
      assert EntryOk(r, k);
    }
    forall g | g in s.groups ensures GroupOk(s, g) {
      assert GroupOk(r, g);
    }
  }

  /** Every accepted login among the first `n` events is sound at its moment. */
  ghost predicate SoundTo(states: seq<Registry>, es: seq<Event>, n: nat)
    requires Run(states, es) && n <= |es|
  {
    forall p :: 0 <= p < n && AcceptedAt(states, es, p) ==> Sound(states[p], es[p].serverType, es[p].id)
  }

  lemma {:induction false} SoundKeepsInvTo(states: seq<Registry>, es: seq<Event>, n: nat)
    requires Run(states, es) && n <= |es| && SoundTo(states, es, n)
    ensures Inv(states[n])
  {
    hide Inv, Step, Sound, Accepts;
    if n == 0 {
      EmptyInv();
    } else {
      SoundKeepsInvTo(states, es, n - 1);
      assert AcceptedAt(states, es, n - 1) ==> Sound(states[n - 1], es[n - 1].serverType, es[n - 1].id);
      StepKeepsInv(states[n - 1], es[n - 1], states[n]);
    }
  }

  /** The registry invariant holds all along a run if and only if every accepted login is sound. */
  lemma InvOverRunsExactly(states: seq<Registry>, es: seq<Event>)
    requires Run(states, es)
    ensures (forall n :: 0 <= n <= |es| ==> Inv(states[n])) <==> SoundTo(states, es, |es|)
  {
    hide Inv, Step, Sound, Accepts;
    if SoundTo(states, es, |es|) {
      forall n | 0 <= n <= |es| ensures Inv(states[n]) {
        SoundKeepsInvTo(states, es, n);
      }
    } else if forall n :: 0 <= n <= |es| ==> Inv(states[n]) {
      var p :| 0 <= p < |es| && AcceptedAt(states, es, p) && !Sound(states[p], es[p].serverType, es[p].id);
      StepKeepsInv(states[p], es[p], states[p + 1]);
      assert false;
    }
  }

  /** In particular it holds all along every run whose accepted logins fit the combined key. */
  lemma InvOverRuns(states: seq<Registry>, es: seq<Event>, n: nat)
    requires Run(states, es) && Fits(states, es) && n <= |es|
    ensures Inv(states[n])
  {
    hide Inv, Step, Sound, InRange;
    forall p | 0 <= p < n && AcceptedAt(states, es, p) ensures Sound(states[p], es[p].serverType, es[p].id) {
      FittingIsSound(states[p], es[p].serverType, es[p].id);
    }
    SoundKeepsInvTo(states, es, n);
  }

  lemma EmptyInv()
    ensures Inv(NOTHING)
  {
  }

  // ----- the connection of an instance, from the history -----

  /** Event `p` logged the instance in with connection `f`, and nothing up to event `n` has undone that. */
  ghost predicate LiveSince(states: seq<Registry>, es: seq<Event>, n: nat, t: uint32, i: int32, f: int64, p: nat)
    requires Run(states, es) && n <= |es|
  {
    && p < n && AcceptedAt(states, es, p) && es[p] == LogIn(t, i, f)
    && forall q :: p < q < n ==>
         es[q] != LogOut(f) && !(AcceptedAt(states, es, q) && es[q].serverType == t && es[q].id == i)
  }

  ghost predicate Live(states: seq<Registry>, es: seq<Event>, n: nat, t: uint32, i: int32, f: int64)
    requires Run(states, es) && n <= |es|
  {
    exists p :: LiveSince(states, es, n, t, i, f, p)
  }

  /** No two entries hold the same connection. */
  ghost predicate DistinctFds(r: Registry) {
    forall j, k :: j in r.entries && k in r.entries && r.entries[j].fd == r.entries[k].fd != 0 ==> j == k
  }

  /** A connection is only logged in while no other instance holds it. */
  ghost predicate Exclusive(states: seq<Registry>, es: seq<Event>)
    requires Run(states, es)
  {
    forall n, k :: 0 <= n < |es| && AcceptedAt(states, es, n) && es[n].fd != 0 && Holds(states[n], k, es[n].fd) ==>
                     k == CalcTypeId(es[n].serverType, es[n].id)
  }

  /** What one login does to the connections. */
  lemma LoginFds(r: Registry, serverType: uint32, id: int32, fd: int64, k: int32)
    requires Linked(r) && Accepts(r.config, serverType, id) && InRange(serverType, id)
    ensures var s := Login(r, serverType, id, fd);
            && CalcTypeId(serverType, id) in s.entries && s.entries[CalcTypeId(serverType, id)].fd == fd
            && (k != CalcTypeId(serverType, id) && k % 1024 != 0 ==>
                  (k in s.entries <==> k in r.entries) && (k in r.entries ==> s.entries[k].fd == r.entries[k].fd))
            && (k != CalcTypeId(serverType, id) && k in s.entries && s.entries[k].fd != 0 ==>
                  k in r.entries && r.entries[k].fd == s.entries[k].fd)
  {
    CalcTypeIdInjective(serverType, id);
    hide CalcTypeId, Linked;
  }

  lemma StepDistinct(r: Registry, e: Event, s: Registry)
    requires Step(r, e, s) && DistinctFds(r)
    requires e.LogIn? && Accepts(r.config, e.serverType, e.id) ==> InRange(e.serverType, e.id)
    requires e.LogIn? && Accepts(r.config, e.serverType, e.id) && e.fd != 0 ==>
               forall k :: Holds(r, k, e.fd) ==> k == CalcTypeId(e.serverType, e.id)
    ensures DistinctFds(s)
  {
    if e.LogIn? && Accepts(r.config, e.serverType, e.id) {
      hide Login, CalcTypeId;
      forall j, k | j in s.entries && k in s.entries && s.entries[j].fd == s.entries[k].fd != 0 ensures j == k {
        LoginFds(r, e.serverType, e.id, e.fd, j);
        LoginFds(r, e.serverType, e.id, e.fd, k);
        assert j in r.entries ==> (r.entries[j].fd == e.fd ==> Holds(r, j, e.fd));
        assert k in r.entries ==> (r.entries[k].fd == e.fd ==> Holds(r, k, e.fd));
      }
    }
  }

  lemma {:induction false} DistinctOverRuns(states: seq<Registry>, es: seq<Event>, n: nat)
    requires Run(states, es) && Fits(states, es) && Exclusive(states, es) && n <= |es|
    ensures DistinctFds(states[n])
  {
    hide DistinctFds, Step;
    if n == 0 {
      EmptyDistinct();
    } else {
      DistinctOverRuns(states, es, n - 1);
      StepDistinct(states[n - 1], es[n - 1], states[n]);
    }
  }

  /** No two entries ever hold the same connection if and only if a connection is only logged in while no other
      instance holds it. */
  lemma DistinctExactly(states: seq<Registry>, es: seq<Event>)
    requires Run(states, es) && Fits(states, es)
    ensures (forall n :: 0 <= n <= |es| ==> DistinctFds(states[n])) <==> Exclusive(states, es)
  {
    hide DistinctFds, Step, Accepts, Holds, InRange, CalcTypeId, Fits;
    if Exclusive(states, es) {
      forall n | 0 <= n <= |es| ensures DistinctFds(states[n]) {
        DistinctOverRuns(states, es, n);
      }
    }
    if forall n :: 0 <= n <= |es| ==> DistinctFds(states[n]) {
      forall n, k | 0 <= n < |es| && AcceptedAt(states, es, n) && es[n].fd != 0 && Holds(states[n], k, es[n].fd)
        ensures k == CalcTypeId(es[n].serverType, es[n].id)
      {
        StepAt(states, es, n);
        InvOverRuns(states, es, n);
        SharingLogin(states[n], es[n], states[n + 1], k);
      }
    }
  }

  lemma SharingLogin(r: Registry, e: Event, s: Registry, k: int32)
    requires Step(r, e, s) && e.LogIn? && Accepts(r.config, e.serverType, e.id) && InRange(e.serverType, e.id)
    requires Inv(r) && DistinctFds(s) && e.fd != 0 && Holds(r, k, e.fd)
    ensures k == CalcTypeId(e.serverType, e.id)
  {
    InvParts(r, k);
    LoginFds(r, e.serverType, e.id, e.fd, k);
    hide Login, CalcTypeId, Inv, Linked;
  }

  lemma EmptyDistinct()
    ensures DistinctFds(NOTHING)
  {
  }

  /** How the connection of one instance changes in a step. */
  lemma FdStep(r: Registry, e: Event, s: Registry, t: uint32, i: int32, f: int64)
    requires Step(r, e, s) && InRange(t, i) && f != 0 && (e == LogOut(f) ==> SoleHolder(r, f))
    requires e.LogIn? && Accepts(r.config, e.serverType, e.id) ==> InRange(e.serverType, e.id)
    ensures var accepted := e.LogIn? && Accepts(r.config, e.serverType, e.id);
            if accepted && e.serverType == t && e.id == i then Fd(s, t, i) == f <==> e.fd == f
            else if e == LogOut(f) then Fd(s, t, i) != f
            else Fd(s, t, i) == f <==> Fd(r, t, i) == f
  {
    var k := CalcTypeId(t, i);
    CalcTypeIdInjective(t, i);
    if e.LogIn? && Accepts(r.config, e.serverType, e.id) {
      CalcTypeIdInjective(e.serverType, e.id);
      LoginFds(r, e.serverType, e.id, e.fd, k);
      hide Login, CalcTypeId, Linked;
    } else {
      hide CalcTypeId, Linked;
      assert k in r.entries && r.entries[k].fd != 0 ==> Holds(r, k, r.entries[k].fd);
    }
  }

  /** At most one entry holds the connection. */
  ghost predicate SoleHolder(r: Registry, f: int64) {
    forall j, k :: Holds(r, j, f) && Holds(r, k, f) ==> j == k
  }

  /** No logout before event `n` is of a connection that several entries hold at that moment. */
  ghost predicate SoleLogouts(states: seq<Registry>, es: seq<Event>, n: nat)
    requires Run(states, es) && n <= |es|
  {
    forall q :: 0 <= q < n && es[q].LogOut? && es[q].fd != 0 ==> SoleHolder(states[q], es[q].fd)
  }

  /** An instance has connection `f` exactly when its last accepted login used `f` and `f` has not been logged out
      since, if no connection has been logged out while several entries held it. */
  lemma {:induction false} ConnectionIsLastLogin(states: seq<Registry>, es: seq<Event>, n: nat,
                                                 t: uint32, i: int32, f: int64)
    requires Run(states, es) && Fits(states, es) && n <= |es| && SoleLogouts(states, es, n)
    requires InRange(t, i) && f != 0
    ensures Fd(states[n], t, i) == f <==> Live(states, es, n, t, i, f)
  {
    if n > 0 {
      ConnectionIsLastLogin(states, es, n - 1, t, i, f);
      hide Step, Fd, SoleHolder;
      FdStep(states[n - 1], es[n - 1], states[n], t, i, f);
      LiveStep(states, es, n, t, i, f);
    }
  }

  /** The rule of the last login, at every moment of a run and for every instance. */
  ghost predicate ObeysLastLogin(states: seq<Registry>, es: seq<Event>)
    requires Run(states, es)
  {
    forall n: nat, t: uint32, i: int32, f: int64 ::
      n <= |es| && InRange(t, i) && f != 0 ==> (Fd(states[n], t, i) == f <==> Live(states, es, n, t, i, f))
  }

  /** A run obeys the rule of the last login if and only if it never logs out a connection that several entries hold
      at that moment. Sharing a connection does no harm until then. */
  lemma LastLoginExactly(states: seq<Registry>, es: seq<Event>)
    requires Run(states, es) && Fits(states, es)
    ensures ObeysLastLogin(states, es) <==> SoleLogouts(states, es, |es|)
  {
    hide Step, Fd, Live, SoleHolder, Fits, Accepts, InRange;
    if SoleLogouts(states, es, |es|) {
      forall n: nat, t: uint32, i: int32, f: int64 | n <= |es| && InRange(t, i) && f != 0
        ensures Fd(states[n], t, i) == f <==> Live(states, es, n, t, i, f)
      {
        ConnectionIsLastLogin(states, es, n, t, i, f);
      }
    }
    if ObeysLastLogin(states, es) {
      forall q | 0 <= q < |es| && es[q].LogOut? && es[q].fd != 0 ensures SoleHolder(states[q], es[q].fd) {
        if !SoleHolder(states[q], es[q].fd) {
          var t, i := SharedLogoutBreaks(states, es, q);
          assert false;
        }
      }
    }
  }

  /** Logging out a connection that several entries hold leaves one of them with it, against the rule. */
  lemma SharedLogoutBreaks(states: seq<Registry>, es: seq<Event>, q: nat) returns (t: uint32, i: int32)
    requires Run(states, es) && Fits(states, es) && q < |es|
    requires es[q].LogOut? && es[q].fd != 0 && !SoleHolder(states[q], es[q].fd)
    ensures InRange(t, i) && Fd(states[q + 1], t, i) == es[q].fd
    ensures !Live(states, es, q + 1, t, i, es[q].fd)
  {
    hide *;
    RunLength(states, es);
    StepAt(states, es, q);
    InvOverRuns(states, es, q);
    var r, f := states[q], es[q].fd;
    LogoutStep(r, es[q], states[q + 1]);
    var k := StillHolds(r, f, states[q + 1]);
    HoldsIs(r, k, f);
    HoldsIs(states[q + 1], k, f);
    InvParts(r, k);
    t, i := AddressOf(r, k);
    FdAtKey(states[q + 1], t, i);
    LogoutNotAccepted(states, es, q);
    LiveStep(states, es, q + 1, t, i, f);
  }

  lemma LogoutNotAccepted(states: seq<Registry>, es: seq<Event>, q: nat)
    requires q < |es| && q < |states| && es[q].LogOut?
    ensures !AcceptedAt(states, es, q)
  {
  }

  lemma LogoutStep(r: Registry, e: Event, s: Registry)
    requires Step(r, e, s) && e.LogOut?
    ensures Logout(r, e.fd, s)
  {
    hide Logout, Linked;
  }

  lemma HoldsIs(r: Registry, k: int32, f: int64)
    ensures Holds(r, k, f) <==> k in r.entries && r.entries[k].fd == f
  {
  }

  lemma StillHolds(r: Registry, f: int64, s: Registry) returns (k: int32)
    requires Logout(r, f, s) && f != 0 && !SoleHolder(r, f)
    ensures Holds(r, k, f) && Holds(s, k, f)
  {
    var j: int32, l: int32 :| Holds(r, j, f) && Holds(r, l, f) && j != l;
    k := if Holds(s, j, f) then j else l;
  }

  /** The type and the id of an entry that has a connection. */
  lemma AddressOf(r: Registry, k: int32) returns (t: uint32, i: int32)
    requires EntryOk(r, k) && r.entries[k].fd != 0
    ensures InRange(t, i) && CalcTypeId(t, i) == k
  {
    t, i := k / 1024, k % 1024;
    assert t * 1024 + i == k;
  }

  lemma FdAtKey(r: Registry, t: uint32, i: int32)
    ensures var k := CalcTypeId(t, i); Fd(r, t, i) == if k in r.entries then r.entries[k].fd else 0
  {
    hide CalcTypeId;
  }

  /** How the history of one instance grows. */
  lemma LiveStep(states: seq<Registry>, es: seq<Event>, n: nat, t: uint32, i: int32, f: int64)
    requires Run(states, es) && 0 < n <= |es|
    ensures var e := es[n - 1];
            var live, before := Live(states, es, n, t, i, f), Live(states, es, n - 1, t, i, f);
            if AcceptedAt(states, es, n - 1) && e.serverType == t && e.id == i then live <==> e.fd == f
            else if e == LogOut(f) then !live
            else live <==> before
  {
    hide Step, Accepts;
    var e := es[n - 1];
    if AcceptedAt(states, es, n - 1) && e.serverType == t && e.id == i {
      if e.fd == f {
        assert LiveSince(states, es, n, t, i, f, n - 1);
      }
    } else if e != LogOut(f) {
      if Live(states, es, n - 1, t, i, f) {
        var p :| LiveSince(states, es, n - 1, t, i, f, p);
        assert LiveSince(states, es, n, t, i, f, p);
      }
      if Live(states, es, n, t, i, f) {
        var p :| LiveSince(states, es, n, t, i, f, p);
        assert LiveSince(states, es, n - 1, t, i, f, p);
      }
    }
  }

  // ----- the group of a type -----

  lemma BasicGroups(r: Registry, serverType: uint32, policy: uint32, g: int32)
    requires Inv(r) && serverType < 0x20_0000
    ensures var s, b := WithBasic(r, serverType, policy), CalcTypeId(serverType, 0);
            && b in s.groups && b in s.entries && s.entries[b].group == b
            && (g in s.groups <==> g in r.groups || g == b) && (g in r.groups ==> s.groups[g] == r.groups[g])
            && (b !in r.groups ==> s.groups[b] == Group(serverType, policy, {}))
  {
    hide *;
    var b := CalcTypeId(serverType, 0);
    CalcTypeIdInjective(serverType, 0);
    SmallType(serverType);
    InvParts(r, b);
    InvLinked(r);
    BasicHasGroup(r, b);
    WithBasicIs(r, serverType, policy, b, serverType);
    BasedIs(r, b, serverType, policy, g);
  }

  lemma WithBasicIs(r: Registry, serverType: uint32, policy: uint32, b: int32, svrType: int32)
    requires b == CalcTypeId(serverType, 0) && svrType == Int32(serverType)
    ensures WithBasic(r, serverType, policy) == if b in r.entries then r else Based(r, b, svrType, policy)
  {
    hide CalcTypeId;
  }

  lemma BasedIs(r: Registry, b: int32, svrType: int32, policy: uint32, g: int32)
    ensures var s := Based(r, b, svrType, policy);
            && b in s.groups && b in s.entries && s.entries[b].group == b
            && (g in s.groups <==> g in r.groups || g == b) && (g in r.groups && g != b ==> s.groups[g] == r.groups[g])
            && s.groups[b] == Group(svrType, policy, {})
  {
  }

  lemma BasicHasGroup(r: Registry, b: int32)
    requires Linked(r) && b % 1024 == 0 && (b in r.entries ==> EntryOk(r, b))
    ensures b in r.entries <==> b in r.groups
    ensures b in r.entries ==> r.entries[b].group == b
  {
  }

  lemma RegisteredGroups(s: Registry, b: int32, id: int32, fd: int64, g: int32)
    requires Linked(s) && b in s.entries && InInt32(b + id) && 1 <= id <= 1023
    requires b in s.groups && s.entries[b].group == b && GroupOk(s, b)
    ensures var t := Instances.Registered(s, b, id, fd);
            && (g in t.groups <==> g in s.groups)
            && (g in s.groups ==>
                  t.groups[g] == if g == b then s.groups[b].(instSet := s.groups[b].instSet + {id}) else s.groups[g])
  {
    hide Linked;
    if b + id in s.entries {
      assert id in s.groups[b].instSet;
      assert s.groups[b].instSet + {id} == s.groups[b].instSet;
    }
  }

  lemma RangeIs(serverType: uint32, id: int32)
    ensures InRange(serverType, id) <==> serverType < 0x20_0000 && 1 <= id <= 1023
  {
  }

  lemma LoginIs(r: Registry, serverType: uint32, id: int32, fd: int64)
    requires Linked(r) && Accepts(r.config, serverType, id)
    ensures GetPolicy(r.config, serverType).Some?
    ensures Login(r, serverType, id, fd) == LoggedIn(r, serverType, id, fd, GetPolicy(r.config, serverType).value.policy)
  {
    hide LoggedIn, GetPolicy, Linked;
  }

  /** What a login does to the groups: only the group of its type changes, and only by gaining its id. */
  lemma LoginGroup(r: Registry, serverType: uint32, id: int32, fd: int64, g: int32)
    requires Inv(r) && Linked(r) && Accepts(r.config, serverType, id) && InRange(serverType, id)
    ensures var s, b := Login(r, serverType, id, fd), CalcTypeId(serverType, 0);
            && (g in s.groups <==> g in r.groups || g == b)
            && (g in r.groups && g != b ==> s.groups[g] == r.groups[g])
            && (g in r.groups && g == b ==>
                  s.groups[g] == r.groups[g].(instSet := r.groups[g].instSet + {id}))
            && (g !in r.groups && g == b ==>
                  s.groups[g] == Group(serverType, GetPolicy(r.config, serverType).value.policy, {id}))
  {
    hide *;
    RangeIs(serverType, id);
    LoginIs(r, serverType, id, fd);
    var b, policy := CalcTypeId(serverType, 0), GetPolicy(r.config, serverType).value.policy;
    var s := WithBasic(r, serverType, policy);
    LoggedInIs(r, serverType, id, fd, policy);
    WithBasicKeepsInv(r, serverType, policy);
    InvParts(s, b);
    BasicGroups(r, serverType, policy, g);
    BasicGroups(r, serverType, policy, b);
    RegisteredGroups(s, b, id, fd, g);
    assert {id} == {} + {id};
  }

  /** Type `t` has had an accepted login before event `n`. */
  ghost predicate Seen(states: seq<Registry>, es: seq<Event>, n: nat, t: uint32)
    requires Run(states, es) && n <= |es|
  {
    exists p :: 0 <= p < n && AcceptedAt(states, es, p) && es[p].serverType == t
  }

  /** Instance `i` of type `t` has had an accepted login before event `n`. */
  ghost predicate Registered(states: seq<Registry>, es: seq<Event>, n: nat, t: uint32, i: int32)
    requires Run(states, es) && n <= |es|
  {
    exists p :: 0 <= p < n && AcceptedAt(states, es, p) && es[p].serverType == t && es[p].id == i
  }

  /** Event `p` is the first accepted login of type `t`. */
  ghost predicate FirstLogin(states: seq<Registry>, es: seq<Event>, p: nat, t: uint32)
    requires Run(states, es)
  {
    && p < |es| && AcceptedAt(states, es, p) && es[p].serverType == t
    && !Seen(states, es, p, t)
  }

  lemma SeenStep(states: seq<Registry>, es: seq<Event>, n: nat, t: uint32, i: int32)
    requires Run(states, es) && 0 < n <= |es|
    ensures var now := AcceptedAt(states, es, n - 1) && es[n - 1].serverType == t;
            && (Seen(states, es, n, t) <==> Seen(states, es, n - 1, t) || now)
            && (Registered(states, es, n, t, i) <==> Registered(states, es, n - 1, t, i) || (now && es[n - 1].id == i))
  {
    hide Step, Accepts;
    var now := AcceptedAt(states, es, n - 1) && es[n - 1].serverType == t;
    if Seen(states, es, n, t) && !now {
      var p :| 0 <= p < n && AcceptedAt(states, es, p) && es[p].serverType == t;
      assert p < n - 1;
    }
    if Registered(states, es, n, t, i) && !(now && es[n - 1].id == i) {
      var p :| 0 <= p < n && AcceptedAt(states, es, p) && es[p].serverType == t && es[p].id == i;
      assert p < n - 1;
    }
  }

  /** The group of a type exists once the type has been seen, and its set is the ids ever registered for it. */
  lemma {:induction false} GroupIsHistory(states: seq<Registry>, es: seq<Event>, n: nat, t: uint32, i: int32)
    requires Run(states, es) && Fits(states, es) && n <= |es| && t < 0x20_0000
    ensures var g := CalcTypeId(t, 0);
            && (g in states[n].groups <==> Seen(states, es, n, t))
            && (g in states[n].groups ==> (i in states[n].groups[g].instSet <==> Registered(states, es, n, t, i)))
  {
    var g := CalcTypeId(t, 0);
    if n > 0 {
      GroupIsHistory(states, es, n - 1, t, i);
      InvOverRuns(states, es, n - 1);
      SeenStep(states, es, n, t, i);
      hide Seen, Registered, Inv, CalcTypeId;
      GroupsStep(states[n - 1], es[n - 1], states[n], t, i);
      UnseenNotRegistered(states, es, n - 1, t, i);
    }
  }

  lemma UnseenNotRegistered(states: seq<Registry>, es: seq<Event>, n: nat, t: uint32, i: int32)
    requires Run(states, es) && n <= |es|
    ensures Registered(states, es, n, t, i) ==> Seen(states, es, n, t)
  {
    hide Step, Accepts;
  }

  lemma GroupsStep(r: Registry, e: Event, s: Registry, t: uint32, i: int32)
    requires Step(r, e, s) && Inv(r) && t < 0x20_0000
    requires e.LogIn? && Accepts(r.config, e.serverType, e.id) ==> InRange(e.serverType, e.id)
    ensures var g := CalcTypeId(t, 0);
            var now := e.LogIn? && Accepts(r.config, e.serverType, e.id) && e.serverType == t;
            && (g in s.groups <==> g in r.groups || now)
            && (g in s.groups ==> (i in s.groups[g].instSet <==>
                  (g in r.groups && i in r.groups[g].instSet) || (now && e.id == i)))
            && (g in r.groups ==> s.groups[g].policy == r.groups[g].policy)
            && (g !in r.groups && now ==> s.groups[g].policy == GetPolicy(r.config, t).value.policy)
  {
    hide *;
    CalcTypeIdInjective(t, 0);
    QuietStep(r, e, s);
    if e.LogIn? && Accepts(r.config, e.serverType, e.id) {
      RangeIs(e.serverType, e.id);
      CalcTypeIdInjective(e.serverType, 0);
      LoginIs(r, e.serverType, e.id, e.fd);
      LoginGroup(r, e.serverType, e.id, e.fd, CalcTypeId(t, 0));
    }
  }

  /** Only an accepted login touches the groups. */
  lemma QuietStep(r: Registry, e: Event, s: Registry)
    requires Step(r, e, s)
    ensures Linked(r) && (e.LogIn? ==> s == Login(r, e.serverType, e.id, e.fd))
    ensures !(e.LogIn? && Accepts(r.config, e.serverType, e.id)) ==> s.groups == r.groups
  {
    hide LoggedIn, Accepts, Linked;
  }

  lemma StepAt(states: seq<Registry>, es: seq<Event>, n: nat)
    requires Run(states, es) && Fits(states, es) && n < |es|
    ensures |states| == |es| + 1 && Step(states[n], es[n], states[n + 1])
    ensures var e := es[n];
            e.LogIn? && Accepts(states[n].config, e.serverType, e.id) ==> InRange(e.serverType, e.id)
  {
    hide Step, Accepts, InRange;
    assert AcceptedAt(states, es, n) ==> InRange(es[n].serverType, es[n].id);
  }

  lemma FirstLoginIs(states: seq<Registry>, es: seq<Event>, p: nat, t: uint32)
    requires Run(states, es) && FirstLogin(states, es, p, t)
    ensures p < |es| && es[p].LogIn? && Accepts(states[p].config, t, es[p].id) && es[p].serverType == t
    ensures GetPolicy(states[p].config, t).Some?
    ensures !Seen(states, es, p, t)
  {
    hide Step, GetPolicy, Seen;
  }

  /** The policy in force for a type is the one configured when the type first logged in, whatever the
      configuration has become since. */
  lemma {:induction false} PolicyIsCaptured(states: seq<Registry>, es: seq<Event>, n: nat, p: nat, t: uint32)
    requires Run(states, es) && Fits(states, es) && FirstLogin(states, es, p, t) && p < n <= |es| && t < 0x20_0000
    ensures CalcTypeId(t, 0) in states[n].groups
    ensures states[n].groups[CalcTypeId(t, 0)].policy == GetPolicy(states[p].config, t).value.policy
  {
    hide *;
    if n > p + 1 {
      PolicyIsCaptured(states, es, n - 1, p, t);
    } else {
      FirstLoginIs(states, es, p, t);
      GroupIsHistory(states, es, p, t, 0);
    }
    RunLength(states, es);
    InvOverRuns(states, es, n - 1);
    StepAt(states, es, n - 1);
    GroupsStep(states[n - 1], es[n - 1], states[n], t, 0);
  }

  /** So it is the policy of the first line for the type that was configured then. */
  lemma CapturedIsConfigured(states: seq<Registry>, es: seq<Event>, n: nat, p: nat, t: uint32) returns (i: int)
    requires Run(states, es) && Fits(states, es) && FirstLogin(states, es, p, t) && p < n <= |es| && t < 0x20_0000
    ensures states[p].config.Some? && FirstLine(states[p].config.value, t, i)
    ensures CalcTypeId(t, 0) in states[n].groups
    ensures states[n].groups[CalcTypeId(t, 0)].policy == states[p].config.value[i].policy
  {
    FirstLoginIs(states, es, p, t);
    RunLength(states, es);
    PolicyIsCaptured(states, es, n, p, t);
    hide Run, Fits, FirstLogin, FindPolicy, CalcTypeId, Seen, Accepts;
    FindPolicyExactly(states[p].config.value, t);
    i :| FirstLine(states[p].config.value, t, i) && states[p].config.value[i] == GetPolicy(states[p].config, t).value;
  }

  /** A login is accepted exactly when its id is not zero and its type is configured at that moment. */
  lemma AcceptedExactly(states: seq<Registry>, es: seq<Event>, n: nat)
    requires Run(states, es) && n < |es| && es[n].LogIn?
    ensures AcceptedAt(states, es, n)
       <==> es[n].id != 0 && states[n].config.Some? && Names(states[n].config.value, es[n].serverType)
  {
    hide Step, Accepts;
    AcceptsExactly(states[n].config, es[n].serverType, es[n].id);
  }

  /** A login that is not accepted changes nothing. */
  lemma RefusedChangesNothing(states: seq<Registry>, es: seq<Event>, n: nat)
    requires Run(states, es) && n < |es| && es[n].LogIn?
    requires es[n].id == 0 || states[n].config.None? || !Names(states[n].config.value, es[n].serverType)
    ensures states[n + 1] == states[n]
  {
    AcceptedExactly(states, es, n);
    assert Step(states[n], es[n], states[n + 1]);
    hide Run, Names, LoggedIn, Accepts;
  }

  /** The configuration in force is the one last given. */
  lemma {:induction false} ConfigIsLatest(states: seq<Registry>, es: seq<Event>, n: nat, p: nat)
    requires Run(states, es) && p < n <= |es| && es[p].Reconfigure?
    requires forall q :: p < q < n ==> !es[q].Reconfigure?
    ensures |states| == |es| + 1 && states[n].config == es[p].config
  {
    RunStep(states, es, n - 1);
    hide *;
    StepConfig(states[n - 1], es[n - 1], states[n]);
    if p < n - 1 {
      ConfigIsLatest(states, es, n - 1, p);
    }
  }

  /** Before the first there is none. */
  lemma {:induction false} NoConfigYet(states: seq<Registry>, es: seq<Event>, n: nat)
    requires Run(states, es) && n <= |es|
    requires forall q :: 0 <= q < n ==> !es[q].Reconfigure?
    ensures |states| == |es| + 1 && states[n].config == None
  {
    if n > 0 {
      RunStep(states, es, n - 1);
      hide *;
      NoConfigYet(states, es, n - 1);
      StepConfig(states[n - 1], es[n - 1], states[n]);
    }
  }

  lemma RunStep(states: seq<Registry>, es: seq<Event>, n: nat)
    requires Run(states, es) && n < |es|
    ensures |states| == |es| + 1 && Step(states[n], es[n], states[n + 1])
  {
    hide Step;
  }

  lemma StepConfig(r: Registry, e: Event, s: Registry)
    requires Step(r, e, s)
    ensures s.config == if e.Reconfigure? then e.config else r.config
  {
    hide Accepts, CalcTypeId, GetPolicy;
  }

  // ----- who is online -----

  lemma LoginOnline(r: Registry, serverType: uint32, id: int32, fd: int64, k: int32)
    requires Linked(r)
    ensures var s := Login(r, serverType, id, fd);
            k in s.entries ==>
              || (k in r.entries && s.entries[k] == r.entries[k])
              || (s.entries[k].fd == 0 && !s.entries[k].online)
              || (s.entries[k].fd == fd && s.entries[k].online && Accepts(r.config, serverType, id))
  {
    hide CalcTypeId, Linked, Accepts;
  }

  lemma StepOnline(r: Registry, e: Event, s: Registry, k: int32)
    requires Step(r, e, s)
    ensures k in s.entries ==>
              || (k in r.entries && s.entries[k] == r.entries[k])
              || (s.entries[k].fd == 0 && !s.entries[k].online)
              || (e.LogIn? && Accepts(r.config, e.serverType, e.id) && s.entries[k].fd == e.fd && s.entries[k].online)
  {
    hide Login, Accepts, Linked;
    match e {
      case LogIn(serverType, id, fd) => LoginOnline(r, serverType, id, fd, k);
      case LogOut(fd) =>
      case Reconfigure(config) =>
    }
  }

  /** Over every run whoever has a connection is online; and whoever is online has one, unless instances log in with
      connection 0. */
  lemma {:induction false} OnlineOverRuns(states: seq<Registry>, es: seq<Event>, n: nat, k: int32)
    requires Run(states, es) && n <= |es| && k in states[n].entries
    ensures states[n].entries[k].fd != 0 ==> states[n].entries[k].online
    ensures (forall p :: 0 <= p < n && AcceptedAt(states, es, p) ==> es[p].fd != 0) ==>
              (states[n].entries[k].online ==> states[n].entries[k].fd != 0)
  {
    hide Step, Accepts;
    if n > 0 {
      StepOnline(states[n - 1], es[n - 1], states[n], k);
      if k in states[n - 1].entries {
        OnlineOverRuns(states, es, n - 1, k);
      }
    }
  }

  // ----- sticky targets -----

  /** No login between events `m` and `n` is the first of a new id of type `t`. */
  ghost predicate NoNewId(states: seq<Registry>, es: seq<Event>, m: nat, n: nat, t: uint32)
    requires Run(states, es) && m <= n <= |es|
  {
    forall p :: m <= p < n && AcceptedAt(states, es, p) && es[p].serverType == t ==>
                  Registered(states, es, p, t, es[p].id)
  }

  /** Where packets of a user go depends only on the policy captured and the ids ever registered: between two
      moments with no first login of a new id, no login, logout or configuration change moves any user. */
  lemma {:induction false} TargetsAreSticky(states: seq<Registry>, es: seq<Event>, m: nat, n: nat,
                                            uid: nat, t: uint32, broadcast: bool)
    requires Run(states, es) && Fits(states, es) && m <= n <= |es| && t < 0x20_0000
    requires NoNewId(states, es, m, n, t)
    ensures Linked(states[m]) && Linked(states[n])
    ensures Targets(states[n], uid, t, broadcast) == Targets(states[m], uid, t, broadcast)
    decreases n
  {
    hide *;
    RunLength(states, es);
    InvOverRuns(states, es, m);
    InvOverRuns(states, es, n);
    InvLinked(states[m]);
    InvLinked(states[n]);
    if m < n {
      NoNewIdSplit(states, es, m, n - 1, n, t);
      TargetsAreSticky(states, es, m, n - 1, uid, t, broadcast);
      InvOverRuns(states, es, n - 1);
      InvLinked(states[n - 1]);
      TargetsStep(states, es, n - 1, uid, t, broadcast);
    }
  }

  lemma RunLength(states: seq<Registry>, es: seq<Event>)
    requires Run(states, es)
    ensures |states| == |es| + 1
  {
    hide Step;
  }

  lemma NoNewIdSplit(states: seq<Registry>, es: seq<Event>, m: nat, k: nat, n: nat, t: uint32)
    requires Run(states, es) && m <= k <= n <= |es| && NoNewId(states, es, m, n, t)
    ensures NoNewId(states, es, m, k, t) && NoNewId(states, es, k, n, t)
  {
    hide Step, Accepts, Registered;
  }

  lemma SameGroup(states: seq<Registry>, es: seq<Event>, n: nat, t: uint32, i: int32)
    requires Run(states, es) && Fits(states, es) && n < |es| && t < 0x20_0000
    requires NoNewId(states, es, n, n + 1, t)
    ensures var r, s, g := states[n], states[n + 1], CalcTypeId(t, 0);
            && (g in s.groups <==> g in r.groups)
            && (g in r.groups ==> s.groups[g].policy == r.groups[g].policy)
            && (g in r.groups ==> (i in s.groups[g].instSet <==> i in r.groups[g].instSet))
  {
    StepAt(states, es, n);
    NoNewIdAt(states, es, n, t);
    hide *;
    InvOverRuns(states, es, n);
    GroupsStep(states[n], es[n], states[n + 1], t, i);
    GroupIsHistory(states, es, n, t, i);
    UnseenNotRegistered(states, es, n, t, i);
  }

  lemma NoNewIdAt(states: seq<Registry>, es: seq<Event>, n: nat, t: uint32)
    requires Run(states, es) && n < |es| && NoNewId(states, es, n, n + 1, t)
    ensures var e := es[n];
            e.LogIn? && Accepts(states[n].config, e.serverType, e.id) && e.serverType == t ==>
              Registered(states, es, n, t, e.id)
  {
    hide Step, Accepts, Registered;
    assert AcceptedAt(states, es, n) && es[n].serverType == t ==> Registered(states, es, n, t, es[n].id);
  }

  lemma TargetsStep(states: seq<Registry>, es: seq<Event>, n: nat, uid: nat, t: uint32, broadcast: bool)
    requires Run(states, es) && Fits(states, es) && n < |es| && t < 0x20_0000
    requires Inv(states[n]) && Inv(states[n + 1]) && Linked(states[n]) && Linked(states[n + 1])
    requires NoNewId(states, es, n, n + 1, t)
    ensures Targets(states[n + 1], uid, t, broadcast) == Targets(states[n], uid, t, broadcast)
  {
    hide *;
    RunLength(states, es);
    var r, s, g := states[n], states[n + 1], CalcTypeId(t, 0);
    SameGroup(states, es, n, t, 0);
    TargetsOfGroup(r, t, uid, broadcast);
    TargetsOfGroup(s, t, uid, broadcast);
    if g in r.groups {
      forall i: int32 ensures i in s.groups[g].instSet <==> i in r.groups[g].instSet {
        SameGroup(states, es, n, t, i);
      }
      assert s.groups[g].instSet == r.groups[g].instSet;
    }
  }

  lemma TargetsOfGroup(r: Registry, t: uint32, uid: nat, broadcast: bool)
    requires Inv(r) && Linked(r) && t < 0x20_0000
    ensures var g := CalcTypeId(t, 0);
            Targets(r, uid, t, broadcast)
            == if g in r.groups then Choose(Sorted(r.groups[g].instSet), r.groups[g].policy, uid, broadcast) else []
  {
    CalcTypeIdInjective(t, 0);
    InvParts(r, CalcTypeId(t, 0));
    hide CalcTypeId, Choose, Sorted;
  }

  /** Under the MOD policy a user goes to the one registered id that has exactly uid mod n smaller ones. */
  lemma ModTarget(r: Registry, t: uint32, uid: nat) returns (x: int32)
    requires Inv(r) && Linked(r) && t < 0x20_0000 && CalcTypeId(t, 0) in r.groups
    requires r.groups[CalcTypeId(t, 0)].policy == POLICY_MOD && r.groups[CalcTypeId(t, 0)].instSet != {}
    ensures var all := r.groups[CalcTypeId(t, 0)].instSet;
            Targets(r, uid, t, false) == [x] && x in all && |Below(all, x)| == uid % |all|
  {
    var all := r.groups[CalcTypeId(t, 0)].instSet;
    hide *;
    TargetsOfGroup(r, t, uid, false);
    SortedIs(all);
    assert |all| > 0;
    NthSmallest(all, uid % |all|);
    x := Sorted(all)[uid % |all|];
    ChooseMod(Sorted(all), uid);
    assert x in Sorted(all);
  }

  lemma ChooseMod(all: seq<int32>, uid: nat)
    requires all != []
    ensures Choose(all, POLICY_MOD, uid, false) == [all[uid % |all|]]
  {
  }

  /** The instances of a type that have had an accepted login before event `n`. */
  ghost function EverRegistered(states: seq<Registry>, es: seq<Event>, n: nat, t: uint32): set<int32>
    requires Run(states, es) && n <= |es|
  {
    set i: int32 | 1 <= i <= 1023 && Registered(states, es, n, t, i)
  }

  lemma GroupIsEverRegistered(states: seq<Registry>, es: seq<Event>, n: nat, t: uint32)
    requires Run(states, es) && Fits(states, es) && n <= |es| && t < 0x20_0000 && Seen(states, es, n, t)
    ensures CalcTypeId(t, 0) in states[n].groups
    ensures states[n].groups[CalcTypeId(t, 0)].instSet == EverRegistered(states, es, n, t) != {}
  {
    hide *;
    RunLength(states, es);
    var g := CalcTypeId(t, 0);
    GroupIsHistory(states, es, n, t, 0);
    forall i: int32 ensures i in states[n].groups[g].instSet <==> i in EverRegistered(states, es, n, t) {
      GroupIsHistory(states, es, n, t, i);
      EverRegisteredIs(states, es, n, t, i);
    }
    var first := SomeRegistered(states, es, n, t);
    EverRegisteredIs(states, es, n, t, first);
    assert states[n].groups[g].instSet == EverRegistered(states, es, n, t);
  }

  lemma EverRegisteredIs(states: seq<Registry>, es: seq<Event>, n: nat, t: uint32, i: int32)
    requires Run(states, es) && Fits(states, es) && n <= |es|
    ensures i in EverRegistered(states, es, n, t) <==> Registered(states, es, n, t, i)
  {
    hide Step, Accepts;
  }

  lemma SomeRegistered(states: seq<Registry>, es: seq<Event>, n: nat, t: uint32) returns (i: int32)
    requires Run(states, es) && n <= |es| && Seen(states, es, n, t)
    ensures Registered(states, es, n, t, i)
  {
    hide Step, Accepts;
    var p :| 0 <= p < n && AcceptedAt(states, es, p) && es[p].serverType == t;
    i := es[p].id;
  }

  /** Over every run: if MOD was the policy configured at a type's first login, a user goes to the one instance that
      has exactly uid mod n smaller ones among the n instances of the type that ever logged in. */
  lemma ModTargetOverRuns(states: seq<Registry>, es: seq<Event>, n: nat, p: nat, t: uint32, uid: nat) returns (x: int32)
    requires Run(states, es) && Fits(states, es) && FirstLogin(states, es, p, t) && p < n <= |es| && t < 0x20_0000
    requires GetPolicy(states[p].config, t).value.policy == POLICY_MOD
    ensures Linked(states[n]) && Targets(states[n], uid, t, false) == [x]
    ensures var all := EverRegistered(states, es, n, t); x in all && |Below(all, x)| == uid % |all|
  {
    SeenAfterFirst(states, es, n, p, t);
    hide *;
    RunLength(states, es);
    InvOverRuns(states, es, n);
    InvLinked(states[n]);
    PolicyIsCaptured(states, es, n, p, t);
    GroupIsEverRegistered(states, es, n, t);
    x := ModTarget(states[n], t, uid);
  }

  /** Every policy, at one moment: a broadcast goes to every registered instance, RANDOM to the smallest, and ROUTER and
      whatever is not a policy to none. */
  lemma TargetsExactly(r: Registry, t: uint32, uid: nat, broadcast: bool)
    requires Inv(r) && Linked(r) && t < 0x20_0000
    ensures var b, ids := CalcTypeId(t, 0), Targets(r, uid, t, broadcast);
            if b !in r.groups then ids == []
            else
              var all, policy := r.groups[b].instSet, r.groups[b].policy;
              && (broadcast || policy == 3 ==> Increasing(ids) && forall x :: x in ids <==> x in all)
              && (!broadcast && policy == 1 && all != {} ==> exists x: int32 :: ids == [x] && x in all && |Below(all, x)| == 0)
              && (!broadcast && policy != 1 && policy != 2 && policy != 3 ==> ids == [])
  {
    hide *;
    TargetsOfGroup(r, t, uid, broadcast);
    if CalcTypeId(t, 0) in r.groups {
      var g := r.groups[CalcTypeId(t, 0)];
      SortedIs(g.instSet);
      ChooseExactly(Sorted(g.instSet), g.policy, uid, broadcast);
      if g.instSet != {} {
        NothingBelowLeast(g.instSet);
        LeastIn(g.instSet);
      }
    }
  }

  /** What is done with a caller's vector that is not empty: a broadcast, by flag or by policy, replaces it. */
  lemma ReplacesExactly(r: Registry, t: uint32, broadcast: bool)
    requires Inv(r) && Linked(r) && t < 0x20_0000
    ensures var b := CalcTypeId(t, 0); Replaces(r, t, broadcast) <==> b in r.groups && (broadcast || r.groups[b].policy == 3)
  {
    CalcTypeIdInjective(t, 0);
    InvParts(r, CalcTypeId(t, 0));
    hide CalcTypeId;
  }

  lemma ChooseExactly(all: seq<int32>, policy: uint32, uid: nat, broadcast: bool)
    ensures var ids := Choose(all, policy, uid, broadcast);
            && (broadcast || policy == 3 ==> ids == all)
            && (!broadcast && policy == 1 && all != [] ==> ids == [all[0]])
            && (!broadcast && policy != 1 && policy != 2 && policy != 3 ==> ids == [])
  {
  }

  /** The same over every run, by the line that configured the type at its first login and the instances that ever
      logged in. */
  lemma TargetsOverRuns(states: seq<Registry>, es: seq<Event>, n: nat, p: nat, t: uint32, uid: nat, broadcast: bool)
      returns (i: int)
    requires Run(states, es) && Fits(states, es) && FirstLogin(states, es, p, t) && p < n <= |es| && t < 0x20_0000
    ensures states[p].config.Some? && FirstLine(states[p].config.value, t, i) && Linked(states[n])
    ensures var all, ids := EverRegistered(states, es, n, t), Targets(states[n], uid, t, broadcast);
            var policy := states[p].config.value[i].policy;
            && (broadcast || policy == 3 ==> Increasing(ids) && forall x :: x in ids <==> x in all)
            && (!broadcast && policy == 1 ==> exists x: int32 :: ids == [x] && x in all && |Below(all, x)| == 0)
            && (!broadcast && policy == 2 ==> exists x: int32 :: ids == [x] && x in all && |Below(all, x)| == uid % |all|)
            && (!broadcast && policy != 1 && policy != 2 && policy != 3 ==> ids == [])
  {
    SeenAfterFirst(states, es, n, p, t);
    assert POLICY_MOD == 2;
    hide *;
    RunLength(states, es);
    InvOverRuns(states, es, n);
    InvLinked(states[n]);
    i := CapturedIsConfigured(states, es, n, p, t);
    GroupIsEverRegistered(states, es, n, t);
    TargetsExactly(states[n], t, uid, broadcast);
    if !broadcast && states[p].config.value[i].policy == 2 {
      var x := ModTarget(states[n], t, uid);
    }
  }

  /** No instance of a type has logged in: nobody is a target. */
  lemma NoTargetsYet(states: seq<Registry>, es: seq<Event>, n: nat, t: uint32, uid: nat, broadcast: bool)
    requires Run(states, es) && Fits(states, es) && n <= |es| && t < 0x20_0000 && !Seen(states, es, n, t)
    ensures Linked(states[n]) && Targets(states[n], uid, t, broadcast) == []
  {
    var anyId: int32 := 0;
    hide *;
    RunLength(states, es);
    InvOverRuns(states, es, n);
    InvLinked(states[n]);
    GroupIsHistory(states, es, n, t, anyId);
    TargetsExactly(states[n], t, uid, broadcast);
  }

  lemma LiveIsRegistered(states: seq<Registry>, es: seq<Event>, n: nat, t: uint32, i: int32, f: int64)
    requires Run(states, es) && n <= |es| && Live(states, es, n, t, i, f)
    ensures Registered(states, es, n, t, i)
  {
    hide Step, Accepts;
    var p :| LiveSince(states, es, n, t, i, f, p);
  }

  lemma SeenAfterFirst(states: seq<Registry>, es: seq<Event>, n: nat, p: nat, t: uint32)
    requires Run(states, es) && FirstLogin(states, es, p, t) && p < n <= |es|
    ensures Seen(states, es, n, t)
  {
    hide Step, Accepts;
  }
}
