/** The reference count of the exception library: containers of error information owned by handles. */
module Refcounts {

  datatype TypeInfo = TypeInfo(name: string)

  /** All handles in existence and all containers not yet deleted. */
  class World {
    ghost var handles: set<RefcountPtr>
    ghost var live: set<ErrorInfoContainer>

    constructor ()
      ensures Valid() && handles == {} && live == {}
    {
      handles, live := {}, {};
    }

    /** No handle points at a deleted container, and every container counts its handles. */
    ghost predicate Valid()
      reads this, handles, live
    {
      && (forall c :: c in live ==> c.Counted() && forall h :: h in c.owners ==> h in handles && h.px == c)
      && (forall h :: h in handles && h.px != null ==> h.px in live && h in h.px.owners)
    }

    /** The same, with one handle left out of the account. */
    ghost predicate ValidBut(g: RefcountPtr)
      reads this, handles, live
    {
      && (forall c :: c in live ==> c.Counted() && forall h :: h in c.owners ==> h in handles && h != g && h.px == c)
      && (forall h :: h in handles && h != g && h.px != null ==> h.px in live && h in h.px.owners)
    }

    lemma TwoHandles(g: RefcountPtr, h: RefcountPtr)
      requires Valid() && g in handles && h in handles && g != h && g.px != null && g.px == h.px
      ensures g.px.count >= 2
    {
      assert {g, h} <= g.px.owners;
      assert |g.px.owners - {g, h}| == |g.px.owners| - 2;
    }

    /** The count of a container is the number of handles that point at it. */
    lemma CountIsHandles(c: ErrorInfoContainer)
      requires Valid() && c in live
      ensures c.count == |set h | h in handles && h.px == c|
    {
      assert c.owners == set h | h in handles && h.px == c;
    }
  }

  ghost function Only(c: ErrorInfoContainer?): set<ErrorInfoContainer> { if c == null then {} else {c} }

  class ErrorInfoContainer {
    var info: map<TypeInfo, string>
    var diagnosticInfo: string
    var count: int
    /** The handles that point here. */
    ghost var owners: set<RefcountPtr>

    ghost predicate Counted()
      reads this
    {
      count == |owners|
    }

    constructor ()
      ensures info == map[] && diagnosticInfo == "" && count == 0 && owners == {}
    {
      info, diagnosticInfo, count, owners := map[], "", 0, {};
    }

    method Set(x: string, typeid: TypeInfo)
      modifies this`info, this`diagnosticInfo
      ensures info == old(info)[typeid := x] && diagnosticInfo == ""
    {
      info := info[typeid := x];
      diagnosticInfo := "";
    }

    /** A handle to a copy with its own count. */
    method Clone(w: World) returns (p: RefcountPtr)
      requires w.Valid() && this in w.live
      modifies w
      ensures w.Valid() && fresh(p) && p.px != null && fresh(p.px) && p.px.info == info && p.px.count == 1
      ensures w.handles == old(w.handles) + {p} && w.live == old(w.live) + {p.px}
    {
      p := new RefcountPtr(w);
      var c := new ErrorInfoContainer();
      w.live := w.live + {c};
      p.Adopt(w, c);
      c.info := info;
    }
  }

  class RefcountPtr {
    var px: ErrorInfoContainer?

    /** A handle to nothing. */
    constructor (w: World)
      requires w.Valid()
      modifies w`handles
      ensures w.Valid() && px == null && w.handles == old(w.handles) + {this}
    {
      px := null;
      new;
      w.handles := w.handles + {this};
    }

    constructor Copy(w: World, x: RefcountPtr)
      requires w.Valid() && x in w.handles
      modifies w`handles, Only(x.px)`count, Only(x.px)`owners
      ensures w.Valid() && px == x.px == old(x.px) && w.handles == old(w.handles) + {this}
      ensures px != null ==> px.count == old(x.px.count) + 1
    {
      px := x.px;
      new;
      w.handles := w.handles + {this};
      AddRef(w);
    }

    /** One more owner. */
    method AddRef(w: World)
      requires w.ValidBut(this) && this in w.handles && (px != null ==> px in w.live)
      modifies Only(px)`count, Only(px)`owners
      ensures w.Valid()
      ensures px != null ==> px.count == old(px.count) + 1
    {
      if px != null {
        px.count := px.count + 1;
        px.owners := px.owners + {this};
      }
    }

    /** One owner less; the container is deleted when this was the last. */
    method Release(w: World)
      requires w.Valid() && this in w.handles
      modifies this`px, Only(px)`count, Only(px)`owners, w`live
      ensures w.ValidBut(this)
      ensures old(px) != null ==> old(px).count == old(px.count) - 1
      ensures old(px) != null && old(px.count) == 1 ==> w.live == old(w.live) - {old(px)} && px == null
      ensures old(px) == null || old(px.count) != 1 ==> w.live == old(w.live) && px == old(px)
    {
      if px != null {
        px.count := px.count - 1;
        px.owners := px.owners - {this};
        if px.count == 0 {
          w.live := w.live - {px};
          px := null;
        }
      }
    }

    /** Lets go of the container held and takes another, or none. A handle must not be given the container
        that it alone holds: letting go deletes it. */
    method Adopt(w: World, p: ErrorInfoContainer?)
      requires w.Valid() && this in w.handles && (p != null ==> p in w.live)
      requires p != null && p == px ==> p.count > 1
      modifies this`px, w`live, Only(px)`count, Only(px)`owners, Only(p)`count, Only(p)`owners
      ensures w.Valid() && px == p
      ensures p != null ==> p.count == old(p.count) + if old(px) == p then 0 else 1
      ensures old(px) != null && old(px) != p ==>
                (old(px) !in w.live <==> old(px.count) == 1) && old(px).count == old(px.count) - 1
      ensures w.live == if old(px) != null && old(px) != p && old(px.count) == 1 then old(w.live) - {old(px)} else old(w.live)
    {
      assert px != null ==> px in w.live;
      hide World.Valid;
      Release(w);
      PointAt(w, p);
      AddRef(w);
    }

    /** While a handle is out of the account it may point anywhere. */
    method PointAt(w: World, p: ErrorInfoContainer?)
      requires w.ValidBut(this)
      modifies this`px
      ensures w.ValidBut(this) && px == p
    {
      px := p;
    }

    method Assign(w: World, x: RefcountPtr)
      requires w.Valid() && this in w.handles && x in w.handles
      requires x == this && px != null ==> px.count > 1
      modifies this`px, w`live, Only(px)`count, Only(px)`owners, Only(x.px)`count, Only(x.px)`owners
      ensures w.Valid() && px == old(x.px)
      ensures px != null ==> px.count == old(x.px.count) + if old(px) == px then 0 else 1
      ensures w.live == if old(px) != null && old(px) != px && old(px.count) == 1 then old(w.live) - {old(px)} else old(w.live)
    {
      if x != this && px != null && px == x.px {
        w.TwoHandles(this, x);
      }
      Adopt(w, x.px);
    }

    /** The destructor. */
    method Destroy(w: World)
      requires w.Valid() && this in w.handles
      modifies this`px, Only(px)`count, Only(px)`owners, w
      ensures w.Valid() && w.handles == old(w.handles) - {this}
      ensures old(px) != null ==> old(px).count == old(px.count) - 1
      ensures w.live == if old(px) != null && old(px.count) == 1 then old(w.live) - {old(px)} else old(w.live)
    {
      Release(w);
      w.handles := w.handles - {this};
    }
  }

  // ----- exceptions -----

  class Exception {
    const data: RefcountPtr
    var throwFunction: string
    var throwFile: string
    var throwLine: int

    constructor (w: World)
      requires w.Valid()
      modifies w`handles
      ensures w.Valid() && fresh(data) && data.px == null && w.handles == old(w.handles) + {data}
    {
      throwFunction, throwFile, throwLine := "", "", -1;
      data := new RefcountPtr(w);
    }

    /** Takes over where the other was thrown. */
    method CopyLocation(b: Exception)
      modifies this`throwFunction, this`throwFile, this`throwLine
      ensures throwFunction == old(b.throwFunction) && throwFile == old(b.throwFile) && throwLine == old(b.throwLine)
    {
      throwFile := b.throwFile;
      throwLine := b.throwLine;
      throwFunction := b.throwFunction;
    }

    ghost function Info(): map<TypeInfo, string>
      reads this, data, Only(data.px)
    {
      if data.px == null then map[] else data.px.info
    }

    /** Adds a piece of error information, to everyone who shares the container. */
    method SetInfo(w: World, v: string, typeid: TypeInfo)
      requires w.Valid() && data in w.handles
      modifies w`live, data, Only(data.px)`info, Only(data.px)`diagnosticInfo
      ensures w.Valid() && data.px != null && Info() == old(Info())[typeid := v]
      ensures old(data.px) != null ==> data.px == old(data.px) && w.live == old(w.live)
      ensures old(data.px) == null ==> fresh(data.px) && data.px.count == 1 && w.live == old(w.live) + {data.px}
    {
      var c := data.px;
      if c == null {
        c := new ErrorInfoContainer();
        w.live := w.live + {c};
        data.Adopt(w, c);
      }
      c.Set(v, typeid);
    }
  }

  /** A handle to a copy of the error information of `b`, or to nothing if it has none. */
  method CopyData(w: World, b: Exception) returns (data: RefcountPtr)
    requires w.Valid() && b.data in w.handles
    modifies w
    ensures w.Valid() && fresh(data) && w.handles == old(w.handles) + {data}
    ensures if b.data.px == null then data.px == null && w.live == old(w.live)
            else data.px != null && fresh(data.px) && data.px.info == b.data.px.info && data.px.count == 1
                 && w.live == old(w.live) + {data.px}
  {
    InLive(w, b.data);
    hide World.Valid;
    data := new RefcountPtr(w);
    if b.data.px != null {
      var temp := b.data.px.Clone(w);
      data.Assign(w, temp);
      temp.Destroy(w);
    }
  }

  lemma InLive(w: World, h: RefcountPtr)
    requires w.Valid() && h in w.handles
    ensures h.px != null ==> h.px in w.live
  {
  }

  /** Makes `a` a copy of `b` with a container of its own. */
  method CopyBoostException(w: World, a: Exception, b: Exception)
    requires w.Valid() && a.data in w.handles && b.data in w.handles
    modifies w, a`throwFunction, a`throwFile, a`throwLine, a.data, Only(a.data.px)`count, Only(a.data.px)`owners
    ensures w.Valid() && w.handles == old(w.handles)
    ensures a.Info() == old(b.Info())
    ensures (a.data.px == null <==> old(b.data.px) == null) && (a.data.px != null ==> fresh(a.data.px) && a.data.px.count == 1)
    ensures a.throwFunction == old(b.throwFunction) && a.throwFile == old(b.throwFile) && a.throwLine == old(b.throwLine)
  {
    InLive(w, a.data);
    hide World.Valid;
    var data := CopyData(w, b);
    a.CopyLocation(b);
    GiveData(w, a.data, data);
  }

  /** Assigns a handle that is about to go. */
  method GiveData(w: World, to: RefcountPtr, data: RefcountPtr)
    requires w.Valid() && to in w.handles && data in w.handles && to != data
    requires data.px != null ==> data.px != to.px && data.px.count == 1
    modifies w, to`px, data`px, Only(to.px)`count, Only(to.px)`owners, Only(data.px)`count, Only(data.px)`owners
    ensures w.Valid() && w.handles == old(w.handles) - {data} && to.px == old(data.px)
    ensures to.px != null ==> to.px.count == 1
  {
    hide World.Valid;
    to.Assign(w, data);
    data.Destroy(w);
  }

  /** After a copy, information set on one side never shows on the other. */
  method SetAfterCopy(w: World, a: Exception, b: Exception, v: string, typeid: TypeInfo, onCopy: bool)
    requires w.Valid() && a.data in w.handles && b.data in w.handles && a != b && a.data != b.data
    modifies w, a, a.data, b.data, Only(a.data.px), Only(b.data.px)
    ensures w.Valid()
    ensures a.Info() == if onCopy then old(b.Info())[typeid := v] else old(b.Info())
    ensures b.Info() == if onCopy then old(b.Info()) else old(b.Info())[typeid := v]
  {
    InLive(w, b.data);
    hide World.Valid;
    CopyBoostException(w, a, b);
    if onCopy {
      a.SetInfo(w, v, typeid);
    } else {
      b.SetInfo(w, v, typeid);
    }
  }
}
